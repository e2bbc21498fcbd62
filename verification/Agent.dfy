/**
 The agent's threads: the scan worker and any number of pipe request handlers, as steps of
 one machine over four locks, the scan request flag and the list of scan waiters. The
 `fault` parameter switches the two planted concurrency bugs on.
 */
module Agents {
  import opened Options

  datatype Fault = NoFault | UseAfterFree | Deadlock

  datatype Lock = DbMu | StateMu | ListenersMu | WakeMu

  datatype Thread = Worker | Handler(id: nat)

  /** Where the worker is; the names say which lock it wants or holds. */
  datatype WorkerPc =
    | WantWake | HoldWake
    | WantDb | HoldDb
    | WantState | HoldState
    | HoldDbWantState | HoldDbState
    | WantListeners | HoldListeners
    | Delivering(next: nat)
    | Stopped

  /** Where a request handler is: status, findings and affected, scan, or the stop request. */
  datatype HandlerPc =
    | StatusWantState | StatusHoldState | StatusHoldStateWantDb | StatusHoldBoth | StatusTryDb
    | FindWantState | FindHoldState | FindWantDb | FindHoldDb
    | ScanWantListeners | ScanHoldListeners | ScanWantWake | ScanHoldWake | ScanWaiting
    | StopWantWake | StopHoldWake
    | Returned

  /**
   Waiters are named by their handler. `listeners` is the shared list, `waiting` the worker's
   private copy after the swap; `called` lists the completion calls made, `freed` the waiters
   whose memory is gone, and `stale` whether a call ever went to freed memory.
   */
  datatype State = State(
    worker: WorkerPc, handlers: map<nat, HandlerPc>, owner: map<Lock, Thread>,
    listeners: seq<nat>, waiting: seq<nat>, requested: bool, stopping: bool,
    called: seq<nat>, freed: set<nat>, stale: bool)

  const START: State := State(WantWake, map[], map[], [], [], false, false, [], {}, false)

  // ---- locks ----

  function WorkerHolds(pc: WorkerPc): set<Lock> {
    match pc
    case HoldWake => {WakeMu}
    case HoldDb | HoldDbWantState => {DbMu}
    case HoldState => {StateMu}
    case HoldDbState => {DbMu, StateMu}
    case HoldListeners => {ListenersMu}
    case _ => {}
  }

  function WorkerWants(pc: WorkerPc): Option<Lock> {
    match pc
    case WantWake => Some(WakeMu)
    case WantDb => Some(DbMu)
    case WantState | HoldDbWantState => Some(StateMu)
    case WantListeners => Some(ListenersMu)
    case _ => None
  }

  function HandlerHolds(pc: HandlerPc): set<Lock> {
    match pc
    case StatusHoldState | StatusHoldStateWantDb | FindHoldState => {StateMu}
    case StatusHoldBoth => {StateMu, DbMu}
    case FindHoldDb => {DbMu}
    case ScanHoldListeners => {ListenersMu}
    case ScanHoldWake | StopHoldWake => {WakeMu}
    case _ => {}
  }

  function HandlerWants(pc: HandlerPc): Option<Lock> {
    match pc
    case StatusWantState | FindWantState => Some(StateMu)
    case StatusHoldStateWantDb | FindWantDb => Some(DbMu)
    case ScanWantListeners => Some(ListenersMu)
    case ScanWantWake | StopWantWake => Some(WakeMu)
    case _ => None
  }

  function Holds(s: State, t: Thread): set<Lock> {
    match t
    case Worker => WorkerHolds(s.worker)
    case Handler(h) => if h in s.handlers then HandlerHolds(s.handlers[h]) else {}
  }

  function Wants(s: State, t: Thread): Option<Lock> {
    match t
    case Worker => WorkerWants(s.worker)
    case Handler(h) => if h in s.handlers then HandlerWants(s.handlers[h]) else None
  }

  /** A thread gives up the locks of `before` that are not in `after` and gets the others of `after`. */
  function Reown(owner: map<Lock, Thread>, t: Thread, before: set<Lock>, after: set<Lock>): map<Lock, Thread> {
    map l | l in (owner.Keys - (before - after)) + (after - before) :: if l in after - before then t else owner[l]
  }

  // ---- steps ----

  datatype Action =
    | Spawn(h: nat, pc: HandlerPc)
    | WorkerStep(timer: bool)
    | HandlerStep(h: nat, early: bool)

  predicate IsEntry(pc: HandlerPc) {
    pc == StatusWantState || pc == FindWantState || pc == FindWantDb || pc == ScanWantListeners || pc == StopWantWake
  }

  predicate CanLock(s: State, wants: Option<Lock>) {
    wants.Some? ==> wants.value !in s.owner
  }

  predicate Enabled(s: State, a: Action) {
    match a
    case Spawn(h, pc) => h !in s.handlers && IsEntry(pc)
    case WorkerStep(_) => s.worker != Stopped && CanLock(s, WorkerWants(s.worker))
    case HandlerStep(h, _) => h in s.handlers && s.handlers[h] != Returned && CanLock(s, HandlerWants(s.handlers[h]))
  }

  function Do(s: State, f: Fault, a: Action): State
    requires Enabled(s, a)
  {
    match a
    case Spawn(h, pc) => s.(handlers := s.handlers[h := pc])
    case WorkerStep(timer) => DoWorker(s, f, timer)
    case HandlerStep(h, early) => DoHandler(s, f, h, early)
  }

  function WorkerNext(s: State, f: Fault, timer: bool): WorkerPc {
    match s.worker
    case WantWake => HoldWake
    case HoldWake => if s.stopping then Stopped else if s.requested || timer then WantDb else WantWake
    case WantDb => HoldDb
    case HoldDb => if f == Deadlock then HoldDbWantState else WantState
    case HoldDbWantState => HoldDbState
    case HoldDbState => WantListeners
    case WantState => HoldState
    case HoldState => WantListeners
    case WantListeners => HoldListeners
    case HoldListeners => Delivering(0)
    case Delivering(i) => if i < |s.waiting| then Delivering(i + 1) else WantWake
    case Stopped => Stopped
  }

  /** What the worker's step does besides moving: clear the flag, swap the list, call, let go. */
  function WorkerEffect(s: State, f: Fault, pc: WorkerPc): State {
    match s.worker
    case HoldWake => if pc == WantDb then s.(requested := false) else s
    case HoldListeners => s.(waiting := s.listeners, listeners := [])
    case Delivering(i) =>
      if i < |s.waiting| then
        s.(called := s.called + [s.waiting[i]], stale := s.stale || s.waiting[i] in s.freed)
      else
        s.(waiting := [], freed := if f == UseAfterFree then s.freed else s.freed + (set h | h in s.waiting && HandlerGone(s, h)))
    case _ => s
  }

  predicate HandlerGone(s: State, h: nat) { h in s.handlers && s.handlers[h] == Returned }

  function DoWorker(s: State, f: Fault, timer: bool): State {
    var pc := WorkerNext(s, f, timer);
    WorkerEffect(s, f, pc).(worker := pc, owner := Reown(s.owner, Worker, WorkerHolds(s.worker), WorkerHolds(pc)))
  }

  /** `early` is the findings handler giving up because no scan has finished yet. */
  function HandlerNext(s: State, f: Fault, pc: HandlerPc, early: bool): HandlerPc {
    match pc
    case StatusWantState => StatusHoldState
    case StatusHoldState => if f == Deadlock then StatusHoldStateWantDb else StatusTryDb
    case StatusHoldStateWantDb => StatusHoldBoth
    case StatusHoldBoth => Returned
    case StatusTryDb => if DbMu in s.owner then Returned else FindHoldDb
    case FindWantState => FindHoldState
    case FindHoldState => if early then Returned else FindWantDb
    case FindWantDb => FindHoldDb
    case FindHoldDb => Returned
    case ScanWantListeners => ScanHoldListeners
    case ScanHoldListeners => ScanWantWake
    case ScanWantWake => ScanHoldWake
    case ScanHoldWake => ScanWaiting
    case ScanWaiting => Returned
    case StopWantWake => StopHoldWake
    case StopHoldWake => Returned
    case Returned => Returned
  }

  /** Registering the waiter, posting the request, letting go of the waiter, asking to stop. */
  function HandlerEffect(s: State, f: Fault, h: nat, pc: HandlerPc): State {
    match pc
    case ScanHoldListeners => s.(listeners := s.listeners + [h])
    case ScanHoldWake => s.(requested := true)
    case ScanWaiting => if f == UseAfterFree || (h !in s.listeners && h !in s.waiting) then s.(freed := s.freed + {h}) else s
    case StopHoldWake => s.(stopping := true)
    case _ => s
  }

  function DoHandler(s: State, f: Fault, h: nat, early: bool): State
    requires h in s.handlers
  {
    var pc := s.handlers[h];
    var pc' := HandlerNext(s, f, pc, early);
    HandlerEffect(s, f, h, pc).(handlers := s.handlers[h := pc'],
                                owner := Reown(s.owner, Handler(h), HandlerHolds(pc), HandlerHolds(pc')))
  }

  ghost predicate IsRun(ss: seq<State>, f: Fault, acts: seq<Action>) {
    && |ss| == |acts| + 1 && ss[0] == START
    && forall i :: 0 <= i < |acts| ==> Enabled(ss[i], acts[i]) && ss[i + 1] == Do(ss[i], f, acts[i])
  }

  // ---- lock discipline ----

  /** The owner table says exactly what the threads hold. */
  ghost predicate Owned(s: State) {
    forall l, t :: (l in s.owner && s.owner[l] == t) <==> l in Holds(s, t)
  }

  /** The pcs of the planted deadlock do not occur. */
  ghost predicate Ordered(s: State) {
    && s.worker != HoldDbWantState && s.worker != HoldDbState
    && forall h :: h in s.handlers ==> s.handlers[h] != StatusHoldStateWantDb && s.handlers[h] != StatusHoldBoth
  }

  lemma OwnedStep(s: State, f: Fault, a: Action)
    requires Owned(s) && Enabled(s, a)
    ensures Owned(Do(s, f, a))
  {
    hide Owned, DoWorker, DoHandler;
    match a
    case Spawn(h, pc) => OwnedSpawn(s, h, pc);
    case WorkerStep(timer) => OwnedWorker(s, f, timer);
    case HandlerStep(h, early) => OwnedHandler(s, f, h, early);
  }

  lemma ReownOwned(s: State, s': State, t: Thread)
    requires Owned(s)
    requires s'.owner == Reown(s.owner, t, Holds(s, t), Holds(s', t))
    requires forall l :: l in Holds(s', t) && l !in Holds(s, t) ==> l !in s.owner
    requires forall u :: u != t ==> Holds(s', u) == Holds(s, u)
    ensures Owned(s')
  {
    hide Holds;
    forall l, u ensures (l in s'.owner && s'.owner[l] == u) <==> l in Holds(s', u) {
      assert (l in s.owner && s.owner[l] == u) <==> l in Holds(s, u);
      assert (l in s.owner && s.owner[l] == t) <==> l in Holds(s, t);
    }
  }

  lemma OwnedWorker(s: State, f: Fault, timer: bool)
    requires Owned(s) && Enabled(s, WorkerStep(timer))
    ensures Owned(DoWorker(s, f, timer))
  {
    hide Owned, Reown, HandlerHolds, WorkerHolds, DoWorker, WorkerNext;
    WorkerMoves(s, f, timer);
    WorkerLocks(s, f, timer);
    ReownOwned(s, DoWorker(s, f, timer), Worker);
  }

  /** A worker step changes the owner table by what it takes and gives back, and takes only free locks. */
  lemma WorkerLocks(s: State, f: Fault, timer: bool)
    requires Enabled(s, WorkerStep(timer))
    ensures
      var before, after := WorkerHolds(s.worker), WorkerHolds(WorkerNext(s, f, timer));
      && DoWorker(s, f, timer).owner == Reown(s.owner, Worker, before, after)
      && forall l :: l in after && l !in before ==> l !in s.owner
  {
    hide Reown;
  }

  lemma OwnedHandler(s: State, f: Fault, h: nat, early: bool)
    requires Owned(s) && Enabled(s, HandlerStep(h, early))
    ensures Owned(DoHandler(s, f, h, early))
  {
    hide Owned, Reown, WorkerHolds;
    ReownOwned(s, DoHandler(s, f, h, early), Handler(h));
  }

  lemma OwnedSpawn(s: State, h: nat, pc: HandlerPc)
    requires Owned(s) && Enabled(s, Spawn(h, pc))
    ensures Owned(s.(handlers := s.handlers[h := pc]))
  {
    hide WorkerHolds;
    var s' := s.(handlers := s.handlers[h := pc]);
    assert forall t :: Holds(s', t) == Holds(s, t);
  }

  lemma {:induction false} RunOwned(ss: seq<State>, f: Fault, acts: seq<Action>, i: nat)
    requires IsRun(ss, f, acts) && i < |ss|
    ensures Owned(ss[i]) && (f != Deadlock ==> Ordered(ss[i]))
    decreases i
  {
    hide Owned, Do;
    if i == 0 {
      StartOwned();
    } else {
      RunOwned(ss, f, acts, i - 1);
      OwnedStep(ss[i - 1], f, acts[i - 1]);
      if f != Deadlock { OrderedStep(ss[i - 1], f, acts[i - 1]); }
    }
  }

  lemma StartOwned()
    ensures Owned(START) && Ordered(START)
  {}

  lemma OrderedStep(s: State, f: Fault, a: Action)
    requires Ordered(s) && Enabled(s, a) && f != Deadlock
    ensures Ordered(Do(s, f, a))
  {
    hide DoWorker, DoHandler, WorkerNext, HandlerNext;
    match a
    case Spawn(h, pc) =>
    case WorkerStep(timer) => WorkerMoves(s, f, timer);
    case HandlerStep(h, early) => HandlerMoves(s, f, h, early);
  }

  /** A worker step moves the worker, and into the planted order only under that fault. */
  lemma WorkerMoves(s: State, f: Fault, timer: bool)
    ensures
      var s' := DoWorker(s, f, timer);
      && s'.worker == WorkerNext(s, f, timer) && s'.handlers == s.handlers
      && (s'.worker == HoldDbWantState ==> f == Deadlock)
      && (s'.worker == HoldDbState ==> s.worker == HoldDbWantState)
  {
    hide Reown, WorkerHolds;
  }

  lemma HandlerMoves(s: State, f: Fault, h: nat, early: bool)
    requires h in s.handlers
    ensures
      var s' := DoHandler(s, f, h, early);
      var pc' := HandlerNext(s, f, s.handlers[h], early);
      && s'.worker == s.worker && s'.handlers == s.handlers[h := pc']
      && (pc' == StatusHoldStateWantDb ==> f == Deadlock)
      && (pc' == StatusHoldBoth ==> s.handlers[h] == StatusHoldStateWantDb)
  {
    hide Reown, HandlerHolds;
  }

  /** Thread `t` waits for a lock that thread `u` holds. */
  ghost predicate WaitsFor(s: State, t: Thread, u: Thread) {
    Wants(s, t).Some? && Wants(s, t).value in s.owner && s.owner[Wants(s, t).value] == u
  }

  /**
   In the default configuration, for any number of handlers and every interleaving: no
   thread holds two of the four locks, a lock has one holder, and whoever holds a lock wants
   none, so no wait ever leads to another wait and no cycle of any length exists.
   */
  lemma NoDeadlock(ss: seq<State>, f: Fault, acts: seq<Action>, i: nat)
    requires IsRun(ss, f, acts) && i < |ss| && f != Deadlock
    ensures forall t :: |Holds(ss[i], t)| <= 1
    ensures forall t :: Holds(ss[i], t) != {} ==> Wants(ss[i], t) == None
    ensures forall t, u :: t != u ==> Holds(ss[i], t) !! Holds(ss[i], u)
    ensures forall t, u, v :: WaitsFor(ss[i], t, u) ==> !WaitsFor(ss[i], u, v)
  {
    hide IsRun, Holds, Wants;
    RunOwned(ss, f, acts, i);
    var s := ss[i];
    forall t ensures |Holds(s, t)| <= 1 && (Holds(s, t) != {} ==> Wants(s, t) == None) { OneLockAtMost(s, t); }
    forall t, u | t != u ensures Holds(s, t) !! Holds(s, u) {
      assert forall l :: l in Holds(s, t) ==> l in s.owner && s.owner[l] == t;
      assert forall l :: l in Holds(s, u) ==> l in s.owner && s.owner[l] == u;
    }
    forall t, u, v | WaitsFor(s, t, u) ensures !WaitsFor(s, u, v) {
      assert Wants(s, t).value in Holds(s, u);
    }
  }

  lemma OneLockAtMost(s: State, t: Thread)
    requires Ordered(s)
    ensures |Holds(s, t)| <= 1 && (Holds(s, t) != {} ==> Wants(s, t) == None)
  {}

  /** Whoever holds a lock can take its next step, so every lock is given back. */
  lemma HolderCanStep(ss: seq<State>, f: Fault, acts: seq<Action>, i: nat, l: Lock)
    requires IsRun(ss, f, acts) && i < |ss| && f != Deadlock && l in ss[i].owner
    ensures
      var t := ss[i].owner[l];
      Enabled(ss[i], if t.Worker? then WorkerStep(false) else HandlerStep(t.id, false))
  {
    hide IsRun;
    RunOwned(ss, f, acts, i);
    NoDeadlock(ss, f, acts, i);
    var s, t := ss[i], ss[i].owner[l];
    assert l in Holds(s, t);
    assert Wants(s, t) == None;
  }

  // ---- scan waiters ----

  ghost predicate Distinct(xs: seq<nat>) {
    forall i, j :: 0 <= i < j < |xs| ==> xs[i] != xs[j]
  }

  predicate Registered(pc: HandlerPc) {
    pc == ScanWantWake || pc == ScanHoldWake || pc == ScanWaiting || pc == Returned
  }

  /** The handler has posted its request. */
  predicate Posted(s: State, h: nat) {
    h in s.handlers && (s.handlers[h] == ScanWaiting || s.handlers[h] == Returned)
  }

  /** A scan is on its way and has not yet taken the waiters over. */
  predicate BeforeSwap(pc: WorkerPc) {
    pc.WantDb? || pc.HoldDb? || pc.WantState? || pc.HoldState? || pc.HoldDbWantState? || pc.HoldDbState?
    || pc.WantListeners? || pc.HoldListeners?
  }

  /** How many of the worker's waiters have been called. */
  function Progress(s: State): nat {
    if s.worker.Delivering? then s.worker.next else 0
  }

  /** Each waiter is registered once and is in one place until it has been called. */
  ghost predicate Listed(s: State) {
    && Distinct(s.listeners) && Distinct(s.waiting) && Distinct(s.called)
    && (!s.worker.Delivering? ==> s.waiting == []) && Progress(s) <= |s.waiting|
    && (forall h :: h in s.listeners ==> h !in s.waiting && h !in s.called)
    && (forall i :: 0 <= i < |s.waiting| ==> (s.waiting[i] in s.called <==> i < Progress(s)))
    && (forall h :: h in s.listeners || h in s.waiting || h in s.called ==> h in s.handlers && Registered(s.handlers[h]))
  }

  /** A waiter whose request was posted will be seen: by the flag, by a scan on its way, or never again. */
  ghost predicate Heard(s: State) {
    forall h :: h in s.listeners && Posted(s, h) ==> s.requested || BeforeSwap(s.worker) || s.stopping
  }

  /** No freed waiter can still be called. */
  ghost predicate Alive(s: State) {
    !s.stale && forall h :: h in s.freed ==> h in s.handlers && s.handlers[h] == Returned && h !in s.listeners && h !in s.waiting
  }

  /** Steps that leave the lists alone keep them in order. */
  lemma ListedFrame(s: State, s': State)
    requires Listed(s)
    requires s'.listeners == s.listeners && s'.waiting == s.waiting && s'.called == s.called
    requires s'.worker == s.worker || (!s.worker.Delivering? && !s'.worker.Delivering?)
    requires forall h :: h in s.handlers ==> h in s'.handlers && (Registered(s.handlers[h]) ==> Registered(s'.handlers[h]))
    ensures Listed(s')
  {}

  lemma SwapListed(s: State, s': State)
    requires Listed(s) && s.worker.HoldListeners?
    requires s' == s.(worker := Delivering(0), owner := s'.owner, waiting := s.listeners, listeners := [])
    ensures Listed(s')
  {}

  lemma CallListed(s: State, s': State)
    requires Listed(s) && s.worker.Delivering? && Progress(s) < |s.waiting|
    requires s' == s.(worker := Delivering(Progress(s) + 1), owner := s'.owner, called := s.called + [s.waiting[Progress(s)]], stale := s'.stale)
    ensures Listed(s')
  {
    var h := s.waiting[Progress(s)];
    assert h !in s.called && h in s.waiting;
    assert forall x :: x in s'.called <==> x in s.called || x == h;
  }

  lemma ReleaseListed(s: State, s': State)
    requires Listed(s) && s.worker.Delivering?
    requires s' == s.(worker := WantWake, owner := s'.owner, waiting := [], freed := s'.freed)
    ensures Listed(s')
  {}

  /** What a worker step does to the state besides the locks, by where the worker is. */
  lemma WorkerDoes(s: State, f: Fault, timer: bool)
    ensures
      var s' := DoWorker(s, f, timer);
      if s.worker.HoldListeners? then
        s' == s.(worker := Delivering(0), owner := s'.owner, waiting := s.listeners, listeners := [])
      else if s.worker.Delivering? && s.worker.next < |s.waiting| then
        var h := s.waiting[s.worker.next];
        s' == s.(worker := Delivering(s.worker.next + 1), owner := s'.owner, called := s.called + [h], stale := s.stale || h in s.freed)
      else if s.worker.Delivering? then
        && s' == s.(worker := WantWake, owner := s'.owner, waiting := [], freed := s'.freed)
        && (f == UseAfterFree ==> s'.freed == s.freed)
        && forall h :: h in s'.freed ==> h in s.freed || (h in s.waiting && HandlerGone(s, h))
      else
        s' == s.(worker := s'.worker, owner := s'.owner, requested := s'.requested) && !s'.worker.Delivering?
  {
    hide DoWorker;
    if s.worker.HoldListeners? {
      WorkerSwaps(s, f, timer);
    } else if s.worker.Delivering? {
      WorkerDelivers(s, f, timer);
    } else {
      WorkerGoesOn(s, f, timer);
    }
  }

  lemma WorkerSwaps(s: State, f: Fault, timer: bool)
    requires s.worker.HoldListeners?
    ensures
      var s' := DoWorker(s, f, timer);
      s' == s.(worker := Delivering(0), owner := s'.owner, waiting := s.listeners, listeners := [])
  {
    hide Reown, WorkerHolds;
  }

  lemma WorkerDelivers(s: State, f: Fault, timer: bool)
    requires s.worker.Delivering?
    ensures
      var s' := DoWorker(s, f, timer);
      if s.worker.next < |s.waiting| then
        var h := s.waiting[s.worker.next];
        s' == s.(worker := Delivering(s.worker.next + 1), owner := s'.owner, called := s.called + [h], stale := s.stale || h in s.freed)
      else
        && s' == s.(worker := WantWake, owner := s'.owner, waiting := [], freed := s'.freed)
        && (f == UseAfterFree ==> s'.freed == s.freed)
        && forall h :: h in s'.freed ==> h in s.freed || (h in s.waiting && HandlerGone(s, h))
  {
    hide Reown, WorkerHolds;
  }

  lemma WorkerGoesOn(s: State, f: Fault, timer: bool)
    requires !s.worker.HoldListeners? && !s.worker.Delivering?
    ensures
      var s' := DoWorker(s, f, timer);
      s' == s.(worker := s'.worker, owner := s'.owner, requested := s'.requested) && !s'.worker.Delivering?
  {
    hide Reown, WorkerHolds;
  }

  lemma ListedWorker(s: State, f: Fault, timer: bool)
    requires Listed(s)
    ensures Listed(DoWorker(s, f, timer))
  {
    hide DoWorker, Listed;
    var s' := DoWorker(s, f, timer);
    WorkerDoes(s, f, timer);
    if s.worker.HoldListeners? {
      SwapListed(s, s');
    } else if s.worker.Delivering? {
      if s.worker.next < |s.waiting| { CallListed(s, s'); } else { ReleaseListed(s, s'); }
    } else {
      ListedFrame(s, s');
    }
  }

  lemma RegisterListed(s: State, h: nat, s': State)
    requires Listed(s) && h in s.handlers && s.handlers[h] == ScanHoldListeners
    requires s' == s.(handlers := s.handlers[h := ScanWantWake], owner := s'.owner, listeners := s.listeners + [h])
    ensures Listed(s')
  {
    assert h !in s.listeners && h !in s.waiting && h !in s.called;
    assert forall x :: x in s'.listeners <==> x in s.listeners || x == h;
  }

  lemma ListedHandler(s: State, f: Fault, h: nat, early: bool)
    requires Listed(s) && h in s.handlers
    ensures Listed(DoHandler(s, f, h, early))
  {
    hide Reown, HandlerHolds, Listed;
    var s' := DoHandler(s, f, h, early);
    if s.handlers[h] == ScanHoldListeners {
      RegisterListed(s, h, s');
    } else {
      ListedFrame(s, s');
    }
  }

  lemma ListedStep(s: State, f: Fault, a: Action)
    requires Listed(s) && Enabled(s, a)
    ensures Listed(Do(s, f, a))
  {
    hide DoWorker, DoHandler, Listed;
    match a
    case Spawn(h, pc) => ListedFrame(s, s.(handlers := s.handlers[h := pc]));
    case WorkerStep(timer) => ListedWorker(s, f, timer);
    case HandlerStep(h, early) => ListedHandler(s, f, h, early);
  }

  lemma HeardWorker(s: State, f: Fault, timer: bool)
    requires Heard(s)
    ensures Heard(DoWorker(s, f, timer))
  {
    hide DoWorker;
    var s' := DoWorker(s, f, timer);
    WorkerDoes(s, f, timer);
    WorkerHears(s, f, timer);
    assert forall h :: Posted(s', h) == Posted(s, h);
  }

  /** The flag goes down only as a scan starts, and a scan ends only with the list taken over. */
  lemma WorkerHears(s: State, f: Fault, timer: bool)
    ensures
      var s' := DoWorker(s, f, timer);
      && (s.requested ==> s'.requested || BeforeSwap(s'.worker) || s'.stopping)
      && (BeforeSwap(s.worker) ==> BeforeSwap(s'.worker) || s.worker.HoldListeners?)
      && (s.stopping ==> s'.stopping)
  {
    hide Reown, WorkerHolds;
  }

  lemma HeardHandler(s: State, f: Fault, h: nat, early: bool)
    requires Heard(s) && Listed(s) && h in s.handlers
    ensures Heard(DoHandler(s, f, h, early))
  {
    hide DoHandler, HandlerNext, Distinct, BeforeSwap;
    var s' := DoHandler(s, f, h, early);
    HandlerMoves(s, f, h, early);
    HandlerPosts(s, f, h, early);
    if s.handlers[h] != ScanHoldWake {
      assert forall x :: x in s'.listeners && Posted(s', x) ==> x in s.listeners && Posted(s, x);
    }
  }

  /** Only a handler that registers enters the list, and only one that sets the flag becomes posted while listed. */
  lemma HandlerPosts(s: State, f: Fault, h: nat, early: bool)
    requires h in s.handlers
    ensures
      var s', pc := DoHandler(s, f, h, early), s.handlers[h];
      && (s.requested || pc == ScanHoldWake ==> s'.requested) && (s.stopping ==> s'.stopping)
      && s'.listeners == (if pc == ScanHoldListeners then s.listeners + [h] else s.listeners)
      && (Posted(s', h) ==> pc != ScanHoldListeners && (Posted(s, h) || pc == ScanHoldWake || !Registered(pc)))
  {
    hide DoHandler, HandlerNext, HandlerEffect;
    HandlerMoves(s, f, h, early);
    HandlerLists(s, f, h, early);
    NextPosted(s, f, s.handlers[h], early);
  }

  lemma HandlerLists(s: State, f: Fault, h: nat, early: bool)
    requires h in s.handlers
    ensures
      var s', pc := DoHandler(s, f, h, early), s.handlers[h];
      && (s.requested || pc == ScanHoldWake ==> s'.requested) && (s.stopping ==> s'.stopping)
      && s'.listeners == (if pc == ScanHoldListeners then s.listeners + [h] else s.listeners)
  {
    hide Reown, HandlerHolds, HandlerNext, HandlerEffect;
    EffectLists(s, f, h, s.handlers[h]);
  }

  lemma EffectLists(s: State, f: Fault, h: nat, pc: HandlerPc)
    ensures
      var s' := HandlerEffect(s, f, h, pc);
      && s'.requested == (s.requested || pc == ScanHoldWake) && (s.stopping ==> s'.stopping)
      && s'.listeners == (if pc == ScanHoldListeners then s.listeners + [h] else s.listeners)
  {}

  lemma NextPosted(s: State, f: Fault, pc: HandlerPc, early: bool)
    ensures
      var pc' := HandlerNext(s, f, pc, early);
      pc' == ScanWaiting || pc' == Returned ==>
        pc != ScanHoldListeners && (pc == ScanWaiting || pc == Returned || pc == ScanHoldWake || !Registered(pc))
  {}

  lemma HeardStep(s: State, f: Fault, a: Action)
    requires Heard(s) && Listed(s) && Enabled(s, a)
    ensures Heard(Do(s, f, a))
  {
    hide DoWorker, DoHandler, Distinct, BeforeSwap;
    match a
    case Spawn(h, pc) =>
    case WorkerStep(timer) => HeardWorker(s, f, timer);
    case HandlerStep(h, early) => HeardHandler(s, f, h, early);
  }

  lemma AliveWorker(s: State, f: Fault, timer: bool)
    requires Alive(s) && Listed(s) && f != UseAfterFree
    ensures Alive(DoWorker(s, f, timer))
  {
    hide DoWorker, Distinct;
    WorkerDoes(s, f, timer);
    if s.worker.Delivering? && s.worker.next < |s.waiting| {
      assert s.waiting[s.worker.next] in s.waiting;
    }
  }

  lemma AliveHandler(s: State, f: Fault, h: nat, early: bool)
    requires Alive(s) && Listed(s) && h in s.handlers && s.handlers[h] != Returned && f != UseAfterFree
    ensures Alive(DoHandler(s, f, h, early))
  {
    hide Reown, HandlerHolds, Distinct, Listed;
    assert h !in s.freed;
  }

  lemma AliveStep(s: State, f: Fault, a: Action)
    requires Alive(s) && Listed(s) && Enabled(s, a) && f != UseAfterFree
    ensures Alive(Do(s, f, a))
  {
    hide DoWorker, DoHandler, Listed;
    match a
    case Spawn(h, pc) =>
    case WorkerStep(timer) => AliveWorker(s, f, timer);
    case HandlerStep(h, early) => AliveHandler(s, f, h, early);
  }

  lemma {:induction false} RunWaiters(ss: seq<State>, f: Fault, acts: seq<Action>, i: nat)
    requires IsRun(ss, f, acts) && i < |ss|
    ensures Listed(ss[i]) && Heard(ss[i]) && (f != UseAfterFree ==> Alive(ss[i]))
    decreases i
  {
    hide Listed, Heard, Alive, Do, Enabled;
    if i == 0 {
      StartWaiters();
    } else {
      RunWaiters(ss, f, acts, i - 1);
      ListedStep(ss[i - 1], f, acts[i - 1]);
      HeardStep(ss[i - 1], f, acts[i - 1]);
      if f != UseAfterFree { AliveStep(ss[i - 1], f, acts[i - 1]); }
    }
  }

  lemma StartWaiters()
    ensures Listed(START) && Heard(START) && Alive(START)
  {}

  /**
   In every interleaving of the worker and any number of handlers: a registered waiter whose
   request was posted is heard, and no waiter is completed twice.
   */
  lemma NoLostRequest(ss: seq<State>, f: Fault, acts: seq<Action>, i: nat, h: nat)
    requires IsRun(ss, f, acts) && i < |ss|
    ensures h in ss[i].listeners && Posted(ss[i], h) ==> ss[i].requested || BeforeSwap(ss[i].worker) || ss[i].stopping
    ensures multiset(ss[i].called)[h] <= 1
  {
    hide IsRun, BeforeSwap;
    RunWaiters(ss, f, acts, i);
    DistinctCounts(ss[i].called, h);
  }

  lemma {:induction false} DistinctCounts(xs: seq<nat>, h: nat)
    requires Distinct(xs)
    ensures multiset(xs)[h] <= 1
  {
    if xs != [] {
      assert xs == [xs[0]] + xs[1..];
      DistinctCounts(xs[1..], h);
      assert xs[0] !in xs[1..];
    }
  }

  /** Without the planted fault the worker never calls a waiter that has been freed. */
  lemma NoUseAfterFree(ss: seq<State>, f: Fault, acts: seq<Action>, i: nat)
    requires IsRun(ss, f, acts) && i < |ss| && f != UseAfterFree
    ensures !ss[i].stale
  {
    hide IsRun, Listed, Heard;
    RunWaiters(ss, f, acts, i);
  }

  // ---- every waiter is served ----

  function IndexOf(xs: seq<nat>, h: nat): (i: nat)
    requires h in xs
    ensures i < |xs| && xs[i] == h
    ensures forall j :: 0 <= j < i ==> xs[j] != h
  {
    if xs[0] == h then 0 else 1 + IndexOf(xs[1..], h)
  }

  /** Worker steps until the current scan, or the next one, has taken the waiters over. */
  function ToSwap(pc: WorkerPc): nat {
    match pc
    case HoldListeners => 1
    case WantListeners => 2
    case HoldState | HoldDbState => 3
    case WantState | HoldDbWantState => 4
    case HoldDb => 5
    case WantDb => 6
    case HoldWake => 7
    case _ => 8
  }

  /** A bound on the worker steps until `h` is called. */
  function Distance(s: State, h: nat): nat
    requires h in s.listeners || h in s.waiting
  {
    if h in s.listeners then
      (if s.worker.Delivering? then Rest(s) + 8 else ToSwap(s.worker)) + IndexOf(s.listeners, h) + 1
    else if IndexOf(s.waiting, h) >= Progress(s) then IndexOf(s.waiting, h) - Progress(s) + 1
    else 0
  }

  /** Worker steps until the current deliveries are over. */
  function Rest(s: State): nat {
    if Progress(s) <= |s.waiting| then |s.waiting| - Progress(s) + 1 else 0
  }

  /** A posted waiter that has not been called yet. */
  ghost predicate Owed(s: State, h: nat) {
    Posted(s, h) && h !in s.called && (h in s.listeners || h in s.waiting)
  }

  lemma IndexPush(xs: seq<nat>, x: nat, h: nat)
    requires h in xs
    ensures h in xs + [x] && IndexOf(xs + [x], h) == IndexOf(xs, h)
  {
    var i := IndexOf(xs, h);
    assert (xs + [x])[i] == h;
    assert forall j :: 0 <= j < i ==> (xs + [x])[j] == xs[j];
  }

  lemma WorkerServes(s: State, f: Fault, timer: bool, h: nat)
    requires Listed(s) && Heard(s) && !s.stopping && s.worker != Stopped && Owed(s, h)
    ensures
      var s' := DoWorker(s, f, timer);
      h in s'.called || (Owed(s', h) && Distance(s', h) < Distance(s, h))
  {
    hide DoWorker, Distinct, WorkerNext;
    var s' := DoWorker(s, f, timer);
    WorkerDoes(s, f, timer);
    assert forall x :: Posted(s', x) == Posted(s, x);
    if h !in s.listeners {
      var i := IndexOf(s.waiting, h);
      assert s.waiting[i] in s.called <==> i < Progress(s);
      assert i == Progress(s) ==> s'.called[|s.called|] == h;
    } else if !s.worker.HoldListeners? && !s.worker.Delivering? {
      WorkerNears(s, f, timer);
    }
  }

  /** A scan that is asked for or on its way comes closer to taking the list over. */
  lemma WorkerNears(s: State, f: Fault, timer: bool)
    requires !s.stopping && s.worker != Stopped && !s.worker.HoldListeners? && !s.worker.Delivering?
    requires s.requested || BeforeSwap(s.worker)
    ensures ToSwap(DoWorker(s, f, timer).worker) < ToSwap(s.worker)
  {
    hide Reown, WorkerHolds;
  }

  lemma HandlerKeeps(s: State, f: Fault, g: nat, early: bool, h: nat)
    requires g in s.handlers && s.handlers[g] != Returned && Owed(s, h)
    ensures
      var s' := DoHandler(s, f, g, early);
      Owed(s', h) && Distance(s', h) == Distance(s, h)
  {
    hide DoHandler, ToSwap, HandlerNext;
    var s' := DoHandler(s, f, g, early);
    HandlerMoves(s, f, g, early);
    HandlerPosts(s, f, g, early);
    HandlerCallsNone(s, f, g, early);
    HandlerStaysPosted(s, f, g, early);
    assert Posted(s', h);
    if s.handlers[g] == ScanHoldListeners {
      if h in s.listeners { IndexPush(s.listeners, g, h); }
      assert h != g;
      assert h in s'.listeners <==> h in s.listeners;
    } else {
      assert s'.listeners == s.listeners;
    }
  }

  lemma HandlerStaysPosted(s: State, f: Fault, g: nat, early: bool)
    requires g in s.handlers
    ensures Posted(s, g) ==> Posted(DoHandler(s, f, g, early), g)
  {
    hide Reown, HandlerHolds, HandlerEffect;
  }

  lemma OthersKeep(s: State, f: Fault, a: Action, h: nat)
    requires Enabled(s, a) && !a.WorkerStep? && Owed(s, h)
    ensures
      var s' := Do(s, f, a);
      Owed(s', h) && Distance(s', h) == Distance(s, h)
  {
    hide DoHandler, ToSwap;
    if a.HandlerStep? { HandlerKeeps(s, f, a.h, a.early, h); }
  }

  /**
   Progress without fairness assumptions: while nobody has asked the agent to stop, every step
   of the worker brings every posted waiter strictly closer to its completion call, and no step
   of any other thread takes it further away.
   */
  lemma WaitersServed(ss: seq<State>, f: Fault, acts: seq<Action>, i: nat, h: nat)
    requires IsRun(ss, f, acts) && i < |acts| && !ss[i].stopping && Owed(ss[i], h)
    ensures acts[i].WorkerStep? ==> h in ss[i + 1].called || (Owed(ss[i + 1], h) && Distance(ss[i + 1], h) < Distance(ss[i], h))
    ensures !acts[i].WorkerStep? ==> Owed(ss[i + 1], h) && Distance(ss[i + 1], h) == Distance(ss[i], h)
  {
    hide Listed, Heard, Owed, Distance, DoWorker, DoHandler;
    RunWaiters(ss, f, acts, i);
    if acts[i].WorkerStep? {
      WorkerServes(ss[i], f, acts[i].timer, h);
    } else {
      OthersKeep(ss[i], f, acts[i], h);
    }
  }

  function WorkerSteps(acts: seq<Action>, i: nat, j: nat): nat
    requires i <= j <= |acts|
    decreases j
  {
    if i == j then 0 else WorkerSteps(acts, i, j - 1) + if acts[j - 1].WorkerStep? then 1 else 0
  }

  lemma CalledStays(s: State, f: Fault, a: Action, h: nat)
    requires Enabled(s, a) && h in s.called
    ensures h in Do(s, f, a).called
  {
    hide DoWorker, DoHandler;
    match a
    case Spawn(_, _) =>
    case WorkerStep(timer) => WorkerDoes(s, f, timer);
    case HandlerStep(g, early) => HandlerCallsNone(s, f, g, early);
  }

  lemma HandlerCallsNone(s: State, f: Fault, h: nat, early: bool)
    requires h in s.handlers
    ensures DoHandler(s, f, h, early).called == s.called && DoHandler(s, f, h, early).waiting == s.waiting
  {
    hide Reown, HandlerHolds, HandlerNext;
  }

  /** Along a run without a stop, each worker step brings an owed waiter closer or calls it. */
  lemma {:induction false} ServedOrCloser(ss: seq<State>, f: Fault, acts: seq<Action>, i: nat, j: nat, h: nat)
    requires IsRun(ss, f, acts) && i <= j <= |acts| && Owed(ss[i], h)
    requires forall m :: i <= m < j ==> !ss[m].stopping
    ensures h in ss[j].called || (Owed(ss[j], h) && Distance(ss[j], h) + WorkerSteps(acts, i, j) <= Distance(ss[i], h))
    decreases j
  {
    hide Owed, Distance, Do, Enabled;
    if i < j {
      ServedOrCloser(ss, f, acts, i, j - 1, h);
      if h in ss[j - 1].called {
        CalledStays(ss[j - 1], f, acts[j - 1], h);
      } else {
        WaitersServed(ss, f, acts, j - 1, h);
      }
    }
  }

  /**
   Every posted waiter is called after a bounded number of worker steps, unless the agent is
   told to stop, whatever the handlers do in between.
   */
  lemma ServedWithin(ss: seq<State>, f: Fault, acts: seq<Action>, i: nat, j: nat, h: nat)
    requires IsRun(ss, f, acts) && i <= j <= |acts| && Owed(ss[i], h)
    requires forall m :: i <= m < j ==> !ss[m].stopping
    requires WorkerSteps(acts, i, j) > |ss[i].waiting| + |ss[i].listeners| + 9
    ensures h in ss[j].called
  {
    hide IsRun;
    ServedOrCloser(ss, f, acts, i, j, h);
  }

  // ---- the planted faults are real ----

  lemma Reowns(t: Thread, l: Lock)
    ensures Reown(map[], t, {}, {l}) == map[l := t] && Reown(map[l := t], t, {l}, {}) == map[] && Reown(map[], t, {}, {}) == map[]
  {}

  lemma Extend(ss: seq<State>, f: Fault, acts: seq<Action>, a: Action)
    requires IsRun(ss, f, acts) && Enabled(ss[|acts|], a)
    ensures IsRun(ss + [Do(ss[|acts|], f, a)], f, acts + [a])
  {
    hide Enabled, Do;
  }

  /** A scan handler on its own: registered, posted, gone. */
  function ScanAlone(pc: HandlerPc, owner: map<Lock, Thread>): State {
    START.(handlers := map[0 := pc], owner := owner,
           listeners := if Registered(pc) then [0] else [],
           requested := pc == ScanWaiting || pc == Returned,
           freed := if pc == Returned then {0} else {})
  }

  lemma ScanAloneStep(pc: HandlerPc, l: Lock)
    requires (pc == ScanWantListeners && l == ListenersMu) || (pc == ScanWantWake && l == WakeMu)
    ensures
      var a := HandlerStep(0, false);
      var held := if pc == ScanWantListeners then ScanHoldListeners else ScanHoldWake;
      var after := if pc == ScanWantListeners then ScanWantWake else ScanWaiting;
      && Enabled(ScanAlone(pc, map[]), a)
      && Do(ScanAlone(pc, map[]), UseAfterFree, a) == ScanAlone(held, map[l := Handler(0)])
      && Enabled(ScanAlone(held, map[l := Handler(0)]), a)
      && Do(ScanAlone(held, map[l := Handler(0)]), UseAfterFree, a) == ScanAlone(after, map[])
  {
    hide ScanAlone, Do, Enabled;
    TakesListeners();
    Registers();
    TakesWake();
    Posts();
  }

  lemma TakesListeners()
    ensures
      var s, a := ScanAlone(ScanWantListeners, map[]), HandlerStep(0, false);
      Enabled(s, a) && Do(s, UseAfterFree, a) == ScanAlone(ScanHoldListeners, map[ListenersMu := Handler(0)])
  {
    hide Reown;
    Reowns(Handler(0), ListenersMu);
    assert map[0 := ScanWantListeners][0 := ScanHoldListeners] == map[0 := ScanHoldListeners];
  }

  lemma Registers()
    ensures
      var s, a := ScanAlone(ScanHoldListeners, map[ListenersMu := Handler(0)]), HandlerStep(0, false);
      Enabled(s, a) && Do(s, UseAfterFree, a) == ScanAlone(ScanWantWake, map[])
  {
    hide Reown;
    Reowns(Handler(0), ListenersMu);
    assert map[0 := ScanHoldListeners][0 := ScanWantWake] == map[0 := ScanWantWake];
  }

  lemma TakesWake()
    ensures
      var s, a := ScanAlone(ScanWantWake, map[]), HandlerStep(0, false);
      Enabled(s, a) && Do(s, UseAfterFree, a) == ScanAlone(ScanHoldWake, map[WakeMu := Handler(0)])
  {
    hide Reown;
    Reowns(Handler(0), WakeMu);
    assert map[0 := ScanWantWake][0 := ScanHoldWake] == map[0 := ScanHoldWake];
  }

  lemma Posts()
    ensures
      var s, a := ScanAlone(ScanHoldWake, map[WakeMu := Handler(0)]), HandlerStep(0, false);
      Enabled(s, a) && Do(s, UseAfterFree, a) == ScanAlone(ScanWaiting, map[])
  {
    hide Reown;
    Reowns(Handler(0), WakeMu);
    assert map[0 := ScanHoldWake][0 := ScanWaiting] == map[0 := ScanWaiting];
  }

  lemma ScanAloneGivesUp()
    ensures
      var a := HandlerStep(0, false);
      && Enabled(ScanAlone(ScanWaiting, map[]), a)
      && Do(ScanAlone(ScanWaiting, map[]), UseAfterFree, a) == ScanAlone(Returned, map[])
  {
    hide Reown;
    Reowns(Handler(0), WakeMu);
    assert map[0 := ScanWaiting][0 := Returned] == map[0 := Returned];
  }

  /** The worker on its own with one abandoned waiter in the list. */
  function Abandoned(pc: WorkerPc, owner: map<Lock, Thread>): State {
    ScanAlone(Returned, owner).(worker := pc, requested := pc == WantWake || pc == HoldWake)
  }

  lemma AbandonedStep(pc: WorkerPc, held: WorkerPc, after: WorkerPc, l: Lock)
    requires (pc, held, after, l) in
      [(WantWake, HoldWake, WantDb, WakeMu), (WantDb, HoldDb, WantState, DbMu), (WantState, HoldState, WantListeners, StateMu)]
    ensures
      var a := WorkerStep(false);
      && Enabled(Abandoned(pc, map[]), a) && Do(Abandoned(pc, map[]), UseAfterFree, a) == Abandoned(held, map[l := Worker])
      && Enabled(Abandoned(held, map[l := Worker]), a)
      && Do(Abandoned(held, map[l := Worker]), UseAfterFree, a) == Abandoned(after, map[])
  {
    hide Reown, ScanAlone;
    Reowns(Worker, l);
    AbandonedFlags();
  }

  lemma AbandonedFlags()
    ensures !ScanAlone(Returned, map[]).stopping
    ensures forall owner :: ScanAlone(Returned, owner) == ScanAlone(Returned, map[]).(owner := owner)
  {}

  lemma AbandonedCalled()
    ensures
      var a, s1 := WorkerStep(false), Abandoned(HoldListeners, map[ListenersMu := Worker]);
      && Enabled(Abandoned(WantListeners, map[]), a) && Do(Abandoned(WantListeners, map[]), UseAfterFree, a) == s1
      && Enabled(s1, a) && Enabled(Do(s1, UseAfterFree, a), a)
      && Do(Do(s1, UseAfterFree, a), UseAfterFree, a).stale
  {
    hide Reown;
    Reowns(Worker, ListenersMu);
  }

  /**
   With the use-after-free fault: a scan handler registers, posts and times out, its waiter is
   deleted, and the worker then calls it.
   */
  lemma StaleCall() returns (ss: seq<State>, acts: seq<Action>)
    ensures IsRun(ss, UseAfterFree, acts) && ss[|acts|].stale
  {
    hide Do, Enabled, IsRun, ScanAlone, Abandoned;
    ss, acts := [START], [];
    FirstState();
    ss, acts := Advance(ss, acts, Spawn(0, ScanWantListeners), ScanAlone(ScanWantListeners, map[]));
    ScanAloneStep(ScanWantListeners, ListenersMu);
    ScanAloneStep(ScanWantWake, WakeMu);
    ScanAloneGivesUp();
    var h := HandlerStep(0, false);
    ss, acts := Advance(ss, acts, h, ScanAlone(ScanHoldListeners, map[ListenersMu := Handler(0)]));
    ss, acts := Advance(ss, acts, h, ScanAlone(ScanWantWake, map[]));
    ss, acts := Advance(ss, acts, h, ScanAlone(ScanHoldWake, map[WakeMu := Handler(0)]));
    ss, acts := Advance(ss, acts, h, ScanAlone(ScanWaiting, map[]));
    ss, acts := Advance(ss, acts, h, ScanAlone(Returned, map[]));
    AbandonedStart();
    AbandonedStep(WantWake, HoldWake, WantDb, WakeMu);
    AbandonedStep(WantDb, HoldDb, WantState, DbMu);
    AbandonedStep(WantState, HoldState, WantListeners, StateMu);
    AbandonedCalled();
    var w := WorkerStep(false);
    ss, acts := Advance(ss, acts, w, Abandoned(HoldWake, map[WakeMu := Worker]));
    ss, acts := Advance(ss, acts, w, Abandoned(WantDb, map[]));
    ss, acts := Advance(ss, acts, w, Abandoned(HoldDb, map[DbMu := Worker]));
    ss, acts := Advance(ss, acts, w, Abandoned(WantState, map[]));
    ss, acts := Advance(ss, acts, w, Abandoned(HoldState, map[StateMu := Worker]));
    ss, acts := Advance(ss, acts, w, Abandoned(WantListeners, map[]));
    var s1 := Abandoned(HoldListeners, map[ListenersMu := Worker]);
    ss, acts := Advance(ss, acts, w, s1);
    ss, acts := Advance(ss, acts, w, Do(s1, UseAfterFree, w));
    ss, acts := Advance(ss, acts, w, Do(Do(s1, UseAfterFree, w), UseAfterFree, w));
  }

  /** One more step of a run with the use-after-free fault. */
  lemma Advance(ss: seq<State>, acts: seq<Action>, a: Action, next: State) returns (ss': seq<State>, acts': seq<Action>)
    requires IsRun(ss, UseAfterFree, acts) && Enabled(ss[|acts|], a) && Do(ss[|acts|], UseAfterFree, a) == next
    ensures IsRun(ss', UseAfterFree, acts') && ss'[|acts'|] == next
  {
    hide Do, Enabled;
    Extend(ss, UseAfterFree, acts, a);
    ss', acts' := ss + [next], acts + [a];
  }

  lemma FirstState()
    ensures IsRun([START], UseAfterFree, [])
    ensures Enabled(START, Spawn(0, ScanWantListeners))
    ensures Do(START, UseAfterFree, Spawn(0, ScanWantListeners)) == ScanAlone(ScanWantListeners, map[])
  {}

  lemma AbandonedStart()
    ensures Abandoned(WantWake, map[]) == ScanAlone(Returned, map[])
  {}

  // ---- the lock-order inversion ----

  function Inverted(pc: WorkerPc, owner: map<Lock, Thread>, handlers: map<nat, HandlerPc>): State {
    START.(worker := pc, owner := owner, handlers := handlers)
  }

  lemma InvertedWorker()
    ensures
      var a := WorkerStep(true);
      && Enabled(START, a) && Do(START, Deadlock, a) == Inverted(HoldWake, map[WakeMu := Worker], map[])
      && Enabled(Inverted(HoldWake, map[WakeMu := Worker], map[]), a)
      && Do(Inverted(HoldWake, map[WakeMu := Worker], map[]), Deadlock, a) == Inverted(WantDb, map[], map[])
      && Enabled(Inverted(WantDb, map[], map[]), a)
      && Do(Inverted(WantDb, map[], map[]), Deadlock, a) == Inverted(HoldDb, map[DbMu := Worker], map[])
      && Enabled(Inverted(HoldDb, map[DbMu := Worker], map[]), a)
      && Do(Inverted(HoldDb, map[DbMu := Worker], map[]), Deadlock, a) == Inverted(HoldDbWantState, map[DbMu := Worker], map[])
  {
    hide Reown;
    Reowns(Worker, WakeMu);
    Reowns(Worker, DbMu);
    ReownsNothing(map[DbMu := Worker], Worker, {DbMu});
  }

  lemma ReownsNothing(owner: map<Lock, Thread>, t: Thread, held: set<Lock>)
    ensures Reown(owner, t, held, held) == owner
  {}

  lemma InvertedHandler()
    ensures
      var db := map[DbMu := Worker];
      var both := map[DbMu := Worker, StateMu := Handler(0)];
      var a := HandlerStep(0, false);
      var s1 := Inverted(HoldDbWantState, db, map[0 := StatusWantState]);
      var s2 := Inverted(HoldDbWantState, both, map[0 := StatusHoldState]);
      && Enabled(Inverted(HoldDbWantState, db, map[]), Spawn(0, StatusWantState))
      && Do(Inverted(HoldDbWantState, db, map[]), Deadlock, Spawn(0, StatusWantState)) == s1
      && Enabled(s1, a) && Do(s1, Deadlock, a) == s2
      && Enabled(s2, a) && Do(s2, Deadlock, a) == Inverted(HoldDbWantState, both, map[0 := StatusHoldStateWantDb])
  {
    hide Reown;
    var db, both := map[DbMu := Worker], map[DbMu := Worker, StateMu := Handler(0)];
    TakesState();
    ReownsNothing(both, Handler(0), {StateMu});
    assert map[0 := StatusWantState][0 := StatusHoldState] == map[0 := StatusHoldState];
    assert map[0 := StatusHoldState][0 := StatusHoldStateWantDb] == map[0 := StatusHoldStateWantDb];
  }

  lemma TakesState()
    ensures Reown(map[DbMu := Worker], Handler(0), {}, {StateMu}) == map[DbMu := Worker, StateMu := Handler(0)]
  {}

  /**
   With the deadlock fault: the worker holds the database lock and wants the state lock while a
   status handler holds the state lock and wants the database lock.
   */
  lemma DeadlockCycle() returns (ss: seq<State>, acts: seq<Action>)
    ensures IsRun(ss, Deadlock, acts)
    ensures WaitsFor(ss[|acts|], Worker, Handler(0)) && WaitsFor(ss[|acts|], Handler(0), Worker)
  {
    hide Do, Enabled;
    InvertedWorker();
    InvertedHandler();
    var w, h := WorkerStep(true), HandlerStep(0, false);
    var db, both := map[DbMu := Worker], map[DbMu := Worker, StateMu := Handler(0)];
    acts := [w, w, w, w, Spawn(0, StatusWantState), h, h];
    ss := [START,
           Inverted(HoldWake, map[WakeMu := Worker], map[]),
           Inverted(WantDb, map[], map[]),
           Inverted(HoldDb, db, map[]),
           Inverted(HoldDbWantState, db, map[]),
           Inverted(HoldDbWantState, db, map[0 := StatusWantState]),
           Inverted(HoldDbWantState, both, map[0 := StatusHoldState]),
           Inverted(HoldDbWantState, both, map[0 := StatusHoldStateWantDb])];
  }

  /** Two threads that wait for each other do so for ever, whatever the others do. */
  lemma CycleLasts(s: State, f: Fault, a: Action, t: Thread, u: Thread)
    requires Owned(s) && WaitsFor(s, t, u) && WaitsFor(s, u, t) && Enabled(s, a)
    ensures WaitsFor(Do(s, f, a), t, u) && WaitsFor(Do(s, f, a), u, t)
  {
    hide HandlerHolds, WorkerHolds, HandlerWants, WorkerWants, WorkerNext, HandlerNext, WorkerEffect, HandlerEffect;
    var s' := Do(s, f, a);
    var v := if a.WorkerStep? then Worker else Handler(a.h);
    assert v != t && v != u;
    StepKeepsOthers(s, f, a, v, t);
    StepKeepsOthers(s, f, a, v, u);
    assert Wants(s, t).value in Holds(s, u) && Wants(s, u).value in Holds(s, t);
  }

  lemma StepKeepsOthers(s: State, f: Fault, a: Action, v: Thread, t: Thread)
    requires Owned(s) && Enabled(s, a) && v == (if a.WorkerStep? then Worker else Handler(a.h)) && t != v
    requires t.Handler? ==> t.id in s.handlers
    ensures Wants(Do(s, f, a), t) == Wants(s, t) && Holds(Do(s, f, a), t) == Holds(s, t)
    ensures Owned(Do(s, f, a))
  {
    hide Owned, DoWorker, DoHandler, WorkerNext, HandlerNext, WorkerHolds, HandlerHolds, WorkerWants, HandlerWants;
    OwnedStep(s, f, a);
    match a
    case Spawn(h, pc) =>
    case WorkerStep(timer) => WorkerMoves(s, f, timer);
    case HandlerStep(h, early) => HandlerMoves(s, f, h, early);
  }
}
