/** `IMEIControl`: the two worker threads and any number of threads that call `InitSystem` and
    `DeinitSystem`, interleaved at every shared access (src/MEISystem.cpp). The running phase only:
    the workers' loop conditions are true. */
module ControlSpec {
  import opened MachineTypes
  import opened Registry

  type Sys = nat

  // Mutex 0 is `receivelock`, mutex 1 is `controllock`; worker `k` is the one whose own mutex is
  // mutex `k`.
  const RECEIVE: nat := 0
  const CONTROL: nat := 1

  datatype Thread = Worker(k: nat) | Caller(i: nat)

  // Where a worker stands in its loop: before its first lock, at the two tests of `controlmod`, at
  // the unlock and the lock these lead to, at the test of `access`, and in the loop over systems.
  datatype WorkerPc = First | Test1 | Unlock | Test2 | Lock | Check | Work

  // `seen`: the systems this pass has visited so far.
  datatype WorkerState = WorkerState(pc: WorkerPc, access: bool, seen: seq<Sys>)

  datatype Op = Init(s: Sys) | Deinit(s: Sys)

  // Where a caller stands: outside, before each lock, between locks and unlocks, before each
  // unlock, before the decrement; or returned early, with both locks, from a second registration.
  datatype CallerPc = Outside | LockControl | LockReceive | Critical | UnlockReceive | UnlockControl | Decrement | Stuck

  datatype CallerState = CallerState(pc: CallerPc, ops: seq<Op>)

  datatype State = State(controlmod: int, locks: seq<Option<Thread>>, systems: seq<Sys>,
                         workers: seq<WorkerState>, callers: seq<CallerState>)

  ghost predicate Shape(s: State) { |s.locks| == 2 && |s.workers| == 2 }

  ghost predicate Start(s: State) {
    && Shape(s) && s.controlmod == 0 && s.systems == []
    && s.locks == [None, None]
    && s.workers == [WorkerState(First, true, []), WorkerState(First, true, [])]
    && forall i :: 0 <= i < |s.callers| ==> s.callers[i].pc == Outside
  }

  /** A thread can take a step unless it waits for a mutex or has nothing left to do. */
  predicate Enabled(s: State, t: Thread)
    requires Shape(s)
  {
    match t
    case Worker(k) => k < 2 && (s.workers[k].pc in {First, Lock} ==> s.locks[k] == None)
    case Caller(i) =>
      && i < |s.callers|
      && var c := s.callers[i];
      match c.pc
      case Outside => c.ops != []
      case LockControl => s.locks[CONTROL] == None
      case LockReceive => s.locks[RECEIVE] == None
      case Stuck => false
      case _ => c.ops != []
  }

  // One step of worker `k`: its mutex, and itself.
  function WorkerStep(s: State, k: nat): (r: (Option<Thread>, WorkerState))
    requires Shape(s) && Enabled(s, Worker(k))
  {
    var w, lock := s.workers[k], s.locks[k];
    match w.pc
    case First => (Some(Worker(k)), w.(pc := Test1))
    case Test1 =>
      if s.controlmod != 0 && w.access then (lock, w.(pc := Unlock, access := false)) else (lock, w.(pc := Test2))
    case Unlock => (None, w.(pc := Test2))
    case Test2 => if s.controlmod == 0 && !w.access then (lock, w.(pc := Lock)) else (lock, w.(pc := Check))
    case Lock => (Some(Worker(k)), w.(pc := Check, access := true))
    case Check => if w.access then (lock, w.(pc := Work, seen := [])) else (lock, w.(pc := Test1))
    case Work =>
      var n := |w.seen|;
      if n < |s.systems| then (lock, w.(seen := w.seen + [s.systems[n]])) else (lock, w.(pc := Test1))
  }

  // The list after a registration or its removal.
  function ListAfter(systems: seq<Sys>, op: Op): seq<Sys> {
    match op
    case Init(x) => [x] + systems
    case Deinit(x) => Without(systems, (y: Sys) => y == x)
  }

  predicate Duplicate(systems: seq<Sys>, op: Op) { op.Init? && op.s in systems }

  function CallerStep(s: State, i: nat): State
    requires Shape(s) && Enabled(s, Caller(i))
  {
    var c, me := s.callers[i], Some(Caller(i));
    match c.pc
    case Outside => s.(controlmod := s.controlmod + 1, callers := s.callers[i := c.(pc := LockControl)])
    case LockControl => s.(locks := s.locks[CONTROL := me], callers := s.callers[i := c.(pc := LockReceive)])
    case LockReceive => s.(locks := s.locks[RECEIVE := me], callers := s.callers[i := c.(pc := Critical)])
    case Critical =>
      if Duplicate(s.systems, c.ops[0]) then s.(callers := s.callers[i := c.(pc := Stuck)])
      else s.(systems := ListAfter(s.systems, c.ops[0]), callers := s.callers[i := c.(pc := UnlockReceive)])
    case UnlockReceive => s.(locks := s.locks[RECEIVE := None], callers := s.callers[i := c.(pc := UnlockControl)])
    case UnlockControl => s.(locks := s.locks[CONTROL := None], callers := s.callers[i := c.(pc := Decrement)])
    case Decrement => s.(controlmod := s.controlmod - 1, callers := s.callers[i := CallerState(Outside, c.ops[1..])])
  }

  function Next(s: State, t: Thread): State
    requires Shape(s) && Enabled(s, t)
  {
    match t
    case Worker(k) =>
      var (lock, w) := WorkerStep(s, k);
      s.(locks := s.locks[k := lock], workers := s.workers[k := w])
    case Caller(i) => CallerStep(s, i)
  }

  ghost predicate IsRun(ss: seq<State>, ts: seq<Thread>) {
    && |ss| == |ts| + 1
    && forall k :: 0 <= k < |ts| ==> Shape(ss[k]) && Enabled(ss[k], ts[k]) && ss[k + 1] == Next(ss[k], ts[k])
  }

  ghost predicate Reached(s: State) {
    Shape(s) && exists ss: seq<State>, ts: seq<Thread> :: IsRun(ss, ts) && Start(ss[0]) && ss[|ts|] == s
  }

  // ---- Vocabulary of the properties ----

  // Between `controlmod++` and `controlmod--`.
  predicate Inside(c: CallerState) { c.pc != Outside }

  function CountInside(cs: seq<CallerState>): nat {
    if |cs| == 0 then 0 else CountInside(cs[..|cs| - 1]) + if Inside(cs[|cs| - 1]) then 1 else 0
  }

  // Between the two locks and the two unlocks.
  predicate InCritical(c: CallerState) { c.pc in {Critical, UnlockReceive, Stuck} }

  predicate HoldsControl(c: CallerState) { c.pc in {LockReceive, Critical, UnlockReceive, UnlockControl, Stuck} }

  predicate WorkerHolds(w: WorkerState) { w.pc != First && (w.access || w.pc == Unlock) }

  // The mutex a thread waits at, if it waits at all.
  function WaitsAt(s: State, t: Thread): Option<nat>
    requires Shape(s)
  {
    match t
    case Worker(k) => if k < 2 && s.workers[k].pc in {First, Lock} then Some(k) else None
    case Caller(i) =>
      if i < |s.callers| && s.callers[i].pc == LockControl then Some(CONTROL)
      else if i < |s.callers| && s.callers[i].pc == LockReceive then Some(RECEIVE)
      else None
  }

  // `t` waits for a mutex that `u` holds.
  predicate WaitsFor(s: State, t: Thread, u: Thread)
    requires Shape(s)
  {
    WaitsAt(s, t).Some? && WaitsAt(s, t).value < 2 && s.locks[WaitsAt(s, t).value] == Some(u)
  }
}
