/**
 Starting scans and stopping. Without the timer there are at most as many scans as requests.
 The stop request is never taken back, and the worker returns after a number of its own steps
 fixed by the two waiter lists and the registrations still to come.
 */
module AgentStops {
  import opened Agents

  /** How many steps the worker takes until it returns, if nobody registers any more. */
  function ToStop(s: State): nat {
    match s.worker
    case Stopped => 0
    case HoldWake => 1
    case WantWake => 2
    case Delivering(i) => 3 + if i < |s.waiting| then |s.waiting| - i else 0
    case HoldListeners => 4 + |s.listeners|
    case WantListeners => 5 + |s.listeners|
    case HoldState | HoldDbState => 6 + |s.listeners|
    case WantState | HoldDbWantState => 7 + |s.listeners|
    case HoldDb => 8 + |s.listeners|
    case WantDb => 9 + |s.listeners|
  }

  predicate Registers(s: State, a: Action) {
    a.HandlerStep? && a.h in s.handlers && s.handlers[a.h] == ScanHoldListeners
  }

  function Registrations(ss: seq<State>, acts: seq<Action>, i: nat, j: nat): nat
    requires i <= j <= |acts| < |ss|
    decreases j
  {
    if i == j then 0 else Registrations(ss, acts, i, j - 1) + if Registers(ss[j - 1], acts[j - 1]) then 1 else 0
  }

  lemma WorkerNearsStop(s: State, f: Fault, timer: bool)
    requires s.stopping && s.worker != Stopped
    ensures
      var s' := DoWorker(s, f, timer);
      s'.stopping && ToStop(s') < ToStop(s)
  {
    hide Reown, WorkerHolds;
  }

  lemma HandlerKeepsStop(s: State, f: Fault, h: nat, early: bool)
    requires h in s.handlers
    ensures
      var s' := DoHandler(s, f, h, early);
      && s'.stopping == (s.stopping || s.handlers[h] == StopHoldWake)
      && ToStop(s') <= ToStop(s) + if s.handlers[h] == ScanHoldListeners then 1 else 0
  {
    hide Reown, HandlerHolds, HandlerNext, HandlerEffect, ToStop;
    EffectKeepsStop(s, f, h, s.handlers[h]);
    StopFrame(s, DoHandler(s, f, h, early));
  }

  lemma EffectKeepsStop(s: State, f: Fault, h: nat, pc: HandlerPc)
    ensures
      var s' := HandlerEffect(s, f, h, pc);
      && s'.stopping == (s.stopping || pc == StopHoldWake) && s'.worker == s.worker && s'.waiting == s.waiting
      && |s'.listeners| == |s.listeners| + if pc == ScanHoldListeners then 1 else 0
  {}

  lemma StopFrame(s: State, s': State)
    requires s'.worker == s.worker && s'.waiting == s.waiting && |s'.listeners| >= |s.listeners|
    ensures ToStop(s') <= ToStop(s) + |s'.listeners| - |s.listeners|
  {}

  lemma StopStep(s: State, f: Fault, a: Action)
    requires Enabled(s, a) && s.stopping
    ensures
      var s' := Do(s, f, a);
      && s'.stopping
      && (if a.WorkerStep? then 1 else 0) + ToStop(s') <= ToStop(s) + if Registers(s, a) then 1 else 0
  {
    hide DoWorker, DoHandler, ToStop;
    match a
    case Spawn(h, pc) => SpawnKeepsStop(s, h, pc);
    case WorkerStep(timer) => WorkerNearsStop(s, f, timer);
    case HandlerStep(h, early) => HandlerKeepsStop(s, f, h, early);
  }

  lemma SpawnKeepsStop(s: State, h: nat, pc: HandlerPc)
    ensures ToStop(s.(handlers := s.handlers[h := pc])) == ToStop(s)
  {}

  lemma {:induction false} StopNears(ss: seq<State>, f: Fault, acts: seq<Action>, i: nat, j: nat)
    requires IsRun(ss, f, acts) && i <= j <= |acts| && ss[i].stopping
    ensures ss[j].stopping
    ensures WorkerSteps(acts, i, j) + ToStop(ss[j]) <= ToStop(ss[i]) + Registrations(ss, acts, i, j)
    decreases j
  {
    hide ToStop, Do, Enabled, Registers;
    if i < j {
      StopNears(ss, f, acts, i, j - 1);
      StopStep(ss[j - 1], f, acts[j - 1]);
    }
  }

  lemma StopBound(s: State)
    ensures ToStop(s) <= 9 + |s.listeners| + |s.waiting| && (ToStop(s) == 0 <==> s.worker == Stopped)
  {}

  /**
   Once a handler has carried out the stop request, in any run and under any interleaving, the
   request stays, and the worker has returned as soon as it has taken nine steps more than there
   are waiters, counting those that register meanwhile.
   */
  lemma StopsWithin(ss: seq<State>, f: Fault, acts: seq<Action>, k: nat, j: nat, h: nat, early: bool)
    requires IsRun(ss, f, acts) && k < j <= |acts|
    requires acts[k] == HandlerStep(h, early) && h in ss[k].handlers && ss[k].handlers[h] == StopHoldWake
    ensures forall m :: k < m <= |acts| ==> ss[m].stopping
    ensures WorkerSteps(acts, k + 1, j) >= 9 + |ss[k + 1].listeners| + |ss[k + 1].waiting| + Registrations(ss, acts, k + 1, j) ==>
            ss[j].worker == Stopped
  {
    hide ToStop, Do, DoHandler, Enabled, Registers, Registrations, WorkerSteps;
    assert ss[k + 1].stopping by { StopAsked(ss[k], f, h, early, ss[k + 1], acts[k]); }
    forall m | k < m <= |acts| ensures ss[m].stopping { StopNears(ss, f, acts, k + 1, m); }
    StopNears(ss, f, acts, k + 1, j);
    StopBound(ss[k + 1]);
    StopBound(ss[j]);
  }

  lemma StopAsked(s: State, f: Fault, h: nat, early: bool, s': State, a: Action)
    requires a == HandlerStep(h, early) && Enabled(s, a) && s' == Do(s, f, a) && s.handlers[h] == StopHoldWake
    ensures s'.stopping
  {
    hide DoHandler;
    HandlerKeepsStop(s, f, h, early);
  }

  /** Nothing but a stop request ever stops the worker. */
  lemma {:induction false} OnlyStopStops(ss: seq<State>, f: Fault, acts: seq<Action>, j: nat)
    requires IsRun(ss, f, acts) && j <= |acts| && (ss[j].stopping || ss[j].worker == Stopped)
    ensures exists k, h :: 0 <= k < j && Asks(ss[k], acts[k], h)
    decreases j
  {
    hide Do, DoHandler, DoWorker, Enabled;
    assert ss[0] == START;
    if j > 0 {
      if ss[j - 1].stopping || ss[j - 1].worker == Stopped {
        OnlyStopStops(ss, f, acts, j - 1);
      } else {
        FirstStop(ss[j - 1], f, acts[j - 1]);
        assert Asks(ss[j - 1], acts[j - 1], acts[j - 1].h);
      }
    }
  }

  predicate Asks(s: State, a: Action, h: nat) {
    a.HandlerStep? && a.h == h && h in s.handlers && s.handlers[h] == StopHoldWake
  }

  lemma FirstStop(s: State, f: Fault, a: Action)
    requires Enabled(s, a) && !s.stopping && s.worker != Stopped
    requires var s' := Do(s, f, a); s'.stopping || s'.worker == Stopped
    ensures a.HandlerStep? && Asks(s, a, a.h)
  {
    hide DoWorker, DoHandler;
    match a
    case Spawn(h, pc) =>
    case WorkerStep(timer) => WorkerGoesOnUnlessTold(s, f, timer);
    case HandlerStep(h, early) =>
      HandlerKeepsStop(s, f, h, early);
      HandlerMoves(s, f, h, early);
  }

  lemma WorkerGoesOnUnlessTold(s: State, f: Fault, timer: bool)
    requires !s.stopping && s.worker != Stopped
    ensures !DoWorker(s, f, timer).stopping && DoWorker(s, f, timer).worker != Stopped
  {
    hide Reown, WorkerHolds;
  }

  // ---- scans ----

  /** The worker goes off to scan. */
  predicate Starts(s: State, s': State, a: Action) {
    a.WorkerStep? && s.worker == HoldWake && s'.worker == WantDb
  }

  /** A handler posts a scan request. */
  predicate Posts(s: State, a: Action) {
    a.HandlerStep? && a.h in s.handlers && s.handlers[a.h] == ScanHoldWake
  }

  function Scans(ss: seq<State>, acts: seq<Action>, j: nat): nat
    requires j <= |acts| < |ss|
  {
    if j == 0 then 0 else Scans(ss, acts, j - 1) + if Starts(ss[j - 1], ss[j], acts[j - 1]) then 1 else 0
  }

  function Requests(ss: seq<State>, acts: seq<Action>, j: nat): nat
    requires j <= |acts| < |ss|
  {
    if j == 0 then 0 else Requests(ss, acts, j - 1) + if Posts(ss[j - 1], acts[j - 1]) then 1 else 0
  }

  lemma WorkerTakes(s: State, f: Fault, timer: bool)
    ensures
      var s' := DoWorker(s, f, timer);
      if s.worker == HoldWake && s'.worker == WantDb then !s'.requested && (s.requested || timer) else s'.requested == s.requested
  {
    hide Reown, WorkerHolds;
  }

  lemma HandlerRequests(s: State, f: Fault, h: nat, early: bool)
    requires h in s.handlers
    ensures DoHandler(s, f, h, early).requested == (s.requested || s.handlers[h] == ScanHoldWake)
  {
    hide Reown, HandlerHolds, HandlerNext, HandlerEffect;
    EffectLists(s, f, h, s.handlers[h]);
  }

  lemma ScanStep(s: State, f: Fault, a: Action, s': State)
    requires Enabled(s, a) && s' == Do(s, f, a) && (a.WorkerStep? ==> !a.timer)
    ensures (if Starts(s, s', a) then 1 else 0) + (if s'.requested then 1 else 0) <=
            (if s.requested then 1 else 0) + if Posts(s, a) then 1 else 0
  {
    hide DoWorker, DoHandler;
    match a
    case Spawn(_, _) =>
    case WorkerStep(timer) => WorkerTakes(s, f, timer);
    case HandlerStep(h, early) => HandlerRequests(s, f, h, early);
  }

  /**
   As long as the timer does not fire, every scan answers a request of its own: requests posted
   while a scan is pending are taken together, and none is scanned for twice.
   */
  lemma {:induction false} ScansAnswerRequests(ss: seq<State>, f: Fault, acts: seq<Action>, j: nat)
    requires IsRun(ss, f, acts) && j <= |acts|
    requires forall i :: 0 <= i < j && acts[i].WorkerStep? ==> !acts[i].timer
    ensures Scans(ss, acts, j) + (if ss[j].requested then 1 else 0) <= Requests(ss, acts, j)
    decreases j
  {
    hide Do, Enabled, Starts, Posts;
    if j > 0 {
      ScansAnswerRequests(ss, f, acts, j - 1);
      ScanStep(ss[j - 1], f, acts[j - 1], ss[j]);
    }
  }
}
