/** What the hand-off of `ControlSpec` guarantees in every interleaving. */
module Control {
  import opened MachineTypes
  import opened ControlSpec

  // ---- The invariant ----

  ghost predicate WorkerOk(s: State, k: nat)
    requires Shape(s) && k < 2
  {
    var w := s.workers[k];
    && (s.locks[k] == Some(Worker(k)) <==> WorkerHolds(w))
    && (w.pc == First ==> w.access)
    && (w.pc in {Unlock, Lock} ==> !w.access)
    && (w.pc == Work ==> w.access && w.seen <= s.systems)
  }

  ghost predicate CallerOk(s: State, i: nat)
    requires Shape(s) && i < |s.callers|
  {
    var c := s.callers[i];
    && (s.locks[CONTROL] == Some(Caller(i)) <==> HoldsControl(c))
    && (s.locks[RECEIVE] == Some(Caller(i)) <==> InCritical(c))
    && (Inside(c) ==> c.ops != [])
  }

  ghost predicate OwnerOk(s: State, m: nat)
    requires Shape(s) && m < 2
  {
    match s.locks[m]
    case None => true
    case Some(Worker(k)) => k == m
    case Some(Caller(i)) => i < |s.callers|
  }

  ghost predicate Inv(s: State) {
    && Shape(s)
    && (forall k :: 0 <= k < 2 ==> WorkerOk(s, k) && OwnerOk(s, k))
    && (forall i :: 0 <= i < |s.callers| ==> CallerOk(s, i))
    && s.controlmod == CountInside(s.callers)
  }

  lemma {:induction false} CountUpdate(cs: seq<CallerState>, i: nat, c: CallerState)
    requires i < |cs|
    ensures CountInside(cs[i := c]) == CountInside(cs) + (if Inside(c) then 1 else 0) - (if Inside(cs[i]) then 1 else 0)
  {
    var n := |cs| - 1;
    if i < n {
      assert cs[i := c][..n] == cs[..n][i := c];
      CountUpdate(cs[..n], i, c);
    } else {
      assert cs[i := c][..n] == cs[..n];
    }
  }

  lemma {:induction false} CountNone(cs: seq<CallerState>)
    requires forall i :: 0 <= i < |cs| ==> !Inside(cs[i])
    ensures CountInside(cs) == 0
  {
    if |cs| > 0 {
      CountNone(cs[..|cs| - 1]);
    }
  }

  lemma {:induction false} CountSome(cs: seq<CallerState>, i: nat)
    requires i < |cs| && Inside(cs[i])
    ensures CountInside(cs) > 0
  {
    if i < |cs| - 1 {
      CountSome(cs[..|cs| - 1], i);
    }
  }

  lemma WorkerKeeps(s: State, k: nat)
    requires Inv(s) && Enabled(s, Worker(k))
    ensures Inv(Next(s, Worker(k)))
  {
    var s' := Next(s, Worker(k));
    forall j | 0 <= j < 2 ensures WorkerOk(s', j) && OwnerOk(s', j) {
      assert WorkerOk(s, j) && OwnerOk(s, j);
    }
    forall i | 0 <= i < |s'.callers| ensures CallerOk(s', i) {
      assert CallerOk(s, i);
      assert WorkerOk(s, k);
    }
  }

  lemma CallerKeeps(s: State, i: nat)
    requires Inv(s) && Enabled(s, Caller(i))
    ensures Inv(Next(s, Caller(i)))
  {
    var s' := Next(s, Caller(i));
    assert CallerOk(s, i);
    CountUpdate(s.callers, i, s'.callers[i]);
    forall j | 0 <= j < 2 ensures WorkerOk(s', j) && OwnerOk(s', j) {
      assert WorkerOk(s, j) && OwnerOk(s, j);
    }
    forall j | 0 <= j < |s'.callers| ensures CallerOk(s', j) {
      assert CallerOk(s, j);
    }
  }

  lemma StartInv(s: State)
    requires Start(s)
    ensures Inv(s)
  {
    CountNone(s.callers);
  }

  lemma NextKeeps(s: State, t: Thread)
    requires Inv(s) && Enabled(s, t)
    ensures Inv(Next(s, t))
  {
    hide Inv, Next;
    match t
    case Worker(k) => WorkerKeeps(s, k);
    case Caller(i) => CallerKeeps(s, i);
  }

  lemma {:induction false} RunInv(ss: seq<State>, ts: seq<Thread>, k: nat)
    requires IsRun(ss, ts) && Inv(ss[0]) && k <= |ts|
    ensures Inv(ss[k])
  {
    hide Inv, Next;
    if k > 0 {
      RunInv(ss, ts, k - 1);
      assert ss[k - 1 + 1] == Next(ss[k - 1], ts[k - 1]);
      NextKeeps(ss[k - 1], ts[k - 1]);
    }
  }

  lemma ReachedInv(s: State)
    requires Reached(s)
    ensures Inv(s)
  {
    hide Inv, Next;
    var ss, ts :| IsRun(ss, ts) && Start(ss[0]) && ss[|ts|] == s;
    StartInv(ss[0]);
    RunInv(ss, ts, |ts|);
  }

  // ---- Exclusion ----

  /** Whoever is in a worker's loop owns that worker's mutex, so no caller is between its locks and
      its unlocks, and what the pass has visited is the front of the list as it is now. */
  lemma Exclusion(s: State, k: nat, i: nat)
    requires Reached(s) && k < 2 && i < |s.callers| && s.workers[k].pc == Work
    ensures s.locks[k] == Some(Worker(k)) && s.workers[k].seen <= s.systems
    ensures !InCritical(s.callers[i]) && (k == CONTROL ==> !HoldsControl(s.callers[i]))
  {
    ReachedInv(s);
    assert WorkerOk(s, k) && CallerOk(s, i);
  }

  lemma OneCaller(s: State, i: nat, j: nat)
    requires Reached(s) && i < |s.callers| && j < |s.callers| && HoldsControl(s.callers[i])
          && HoldsControl(s.callers[j])
    ensures i == j
  {
    ReachedInv(s);
    assert CallerOk(s, i) && CallerOk(s, j);
  }

  /** A pass ends exactly when it has visited every registered system once, in order. */
  lemma PassIsComplete(s: State, k: nat)
    requires Reached(s) && k < 2 && s.workers[k].pc == Work
    ensures Enabled(s, Worker(k))
    ensures Next(s, Worker(k)).workers[k].pc != Work <==> s.workers[k].seen == s.systems
  {
    ReachedInv(s);
    assert WorkerOk(s, k);
  }

  /** `controlmod` is the number of callers between its increment and its decrement. */
  lemma ControlmodCounts(s: State)
    requires Reached(s)
    ensures s.controlmod == CountInside(s.callers)
    ensures s.controlmod == 0 <==> forall i :: 0 <= i < |s.callers| ==> !Inside(s.callers[i])
  {
    ReachedInv(s);
    if s.controlmod == 0 {
      forall i | 0 <= i < |s.callers| ensures !Inside(s.callers[i]) {
        if Inside(s.callers[i]) {
          CountSome(s.callers, i);
        }
      }
    } else if forall i :: 0 <= i < |s.callers| ==> !Inside(s.callers[i]) {
      CountNone(s.callers);
    }
  }

  // ---- No thread waits in a circle ----

  /** Whoever is waited for does not wait, or waits at a mutex further down. */
  lemma WaitsDown(s: State, t: Thread, u: Thread)
    requires Reached(s) && WaitsFor(s, t, u)
    ensures WaitsAt(s, u).Some? ==> WaitsAt(s, u).value < WaitsAt(s, t).value
  {
    ReachedInv(s);
    var m := WaitsAt(s, t).value;
    assert OwnerOk(s, m) && WorkerOk(s, m);
    match u
    case Worker(_) =>
    case Caller(i) => assert CallerOk(s, i);
  }

  // Each thread waits for the next.
  predicate WaitInRow(s: State, ts: seq<Thread>)
    requires Shape(s)
  {
    forall k :: 0 <= k < |ts| - 1 ==> WaitsFor(s, ts[k], ts[k + 1])
  }

  /** A chain of waiting threads has at most three members; in particular none is a circle. */
  lemma WaitChain(s: State, ts: seq<Thread>)
    requires Reached(s)
    ensures WaitInRow(s, ts) ==> |ts| <= 3 && (|ts| > 1 ==> ts[|ts| - 1] != ts[0])
  {
    hide Reached, WaitsAt, Enabled, Inv;
    ReachedInv(s);
    InvShape(s);
    if WaitInRow(s, ts) && |ts| > 1 {
      WaitsDown(s, ts[0], ts[1]);
      if |ts| > 2 {
        WaitsDown(s, ts[1], ts[2]);
        if |ts| > 3 {
          WaitsDown(s, ts[2], ts[3]);
        }
      }
    }
  }

  // ---- Bounded bypass ----

  predicate Acquires(s: State, t: Thread, k: nat)
    requires Shape(s) && k < 2
  {
    t == Worker(k) && s.workers[k].pc in {First, Lock}
  }

  // How often worker `k` acquires its mutex in a run.
  function Acquisitions(ss: seq<State>, ts: seq<Thread>, k: nat): nat
    requires |ss| == |ts| + 1 && k < 2 && forall j :: 0 <= j < |ts| ==> Shape(ss[j])
  {
    if |ts| == 0 then 0
    else
      var n := |ts| - 1;
      Acquisitions(ss[..n + 1], ts[..n], k) + if Acquires(ss[n], ts[n], k) then 1 else 0
  }

  function Pending(s: State, k: nat): nat
    requires Shape(s) && k < 2
  {
    if s.workers[k].pc in {First, Lock} then 1 else 0
  }

  // Caller `i` is between increment and decrement all the time.
  predicate StaysInside(ss: seq<State>, i: nat) {
    forall j :: 0 <= j < |ss| ==> i < |ss[j].callers| && Inside(ss[j].callers[i])
  }

  lemma PendingStep(s: State, t: Thread, k: nat)
    requires Inv(s) && Enabled(s, t) && s.controlmod > 0 && k < 2
    ensures Shape(Next(s, t))
    ensures (if Acquires(s, t, k) then 1 else 0) + Pending(Next(s, t), k) <= Pending(s, k)
  {
    assert WorkerOk(s, k);
  }

  lemma {:induction false} AcquisitionsBound(ss: seq<State>, ts: seq<Thread>, i: nat, k: nat)
    requires IsRun(ss, ts) && Inv(ss[0]) && k < 2 && Shape(ss[|ts|]) && StaysInside(ss, i)
    ensures Acquisitions(ss, ts, k) + Pending(ss[|ts|], k) <= Pending(ss[0], k)
  {
    hide Inv, Next, Acquires, Pending, Enabled;
    if |ts| > 0 {
      var n := |ts| - 1;
      RunInv(ss, ts, n);
      InvShape(ss[n]);
      AcquisitionsBound(ss[..n + 1], ts[..n], i, k);
      assert ss[n + 1] == Next(ss[n], ts[n]);
      CountSome(ss[n].callers, i);
      PendingStep(ss[n], ts[n], k);
    }
  }

  lemma InvShape(s: State)
    requires Inv(s)
    ensures Shape(s) && s.controlmod == CountInside(s.callers)
  {}

  /** While a caller is between its increment and its decrement, each worker acquires its mutex at
      most once, however the threads are scheduled. */
  lemma BoundedBypass(ss: seq<State>, ts: seq<Thread>, i: nat, k: nat)
    requires IsRun(ss, ts) && Reached(ss[0]) && k < 2
    ensures StaysInside(ss, i) ==> Acquisitions(ss, ts, k) <= 1
  {
    hide Reached, Inv, Next, Acquires, Enabled;
    if StaysInside(ss, i) {
      ReachedInv(ss[0]);
      RunInv(ss, ts, |ts|);
      InvShape(ss[|ts|]);
      AcquisitionsBound(ss, ts, i, k);
    }
  }

  // ---- Second registrations ----

  /** A caller gets stuck exactly when it registers a system that is registered. */
  lemma StuckIff(s: State, t: Thread, i: nat)
    requires Reached(s) && i < |s.callers| && s.callers[i].pc != Stuck
    ensures Enabled(s, t) ==>
              && |Next(s, t).callers| == |s.callers|
              && (Next(s, t).callers[i].pc == Stuck <==>
                    && t == Caller(i) && s.callers[i].pc == Critical
                    && s.callers[i].ops[0].Init? && s.callers[i].ops[0].s in s.systems)
  {
    ReachedInv(s);
  }

  ghost predicate Jammed(s: State, i: nat) {
    && Shape(s) && i < |s.callers| && s.callers[i].pc == Stuck
    && s.locks[CONTROL] == s.locks[RECEIVE] == Some(Caller(i))
  }

  lemma JammedStep(s: State, t: Thread, i: nat)
    requires Inv(s) && Jammed(s, i) && Enabled(s, t)
    ensures Jammed(Next(s, t), i) && Next(s, t).systems == s.systems
  {
    match t
    case Worker(k) => assert WorkerOk(s, k);
    case Caller(j) => assert CallerOk(s, j);
  }

  predicate IsStuck(s: State, i: nat) { i < |s.callers| && s.callers[i].pc == Stuck }

  // No worker is in its loop and no caller but `i` is behind its first lock.
  ghost predicate Halted(s: State, i: nat)
    requires Shape(s)
  {
    && (forall w :: 0 <= w < 2 ==> s.workers[w].pc != Work)
    && (forall j :: 0 <= j < |s.callers| && j != i ==> !HoldsControl(s.callers[j]))
  }

  /** From then on, for ever: both mutexes stay locked, the list never changes, no worker is ever
      in its loop again and no caller gets past its first lock. */
  lemma {:induction false} StuckForEver(ss: seq<State>, ts: seq<Thread>, i: nat, k: nat)
    requires IsRun(ss, ts) && Reached(ss[0]) && k <= |ts|
    ensures IsStuck(ss[0], i) ==> Jammed(ss[k], i) && Halted(ss[k], i) && ss[k].systems == ss[0].systems
  {
    hide Reached, Next, Enabled;
    if IsStuck(ss[0], i) {
      ReachedInv(ss[0]);
      assert CallerOk(ss[0], i);
      RunInv(ss, ts, k);
      if k > 0 {
        StuckForEver(ss, ts, i, k - 1);
        RunInv(ss, ts, k - 1);
        assert ss[k - 1 + 1] == Next(ss[k - 1], ts[k - 1]);
        JammedStep(ss[k - 1], ts[k - 1], i);
      }
      JammedMeans(ss[k], i);
    }
  }

  lemma JammedMeans(s: State, i: nat)
    requires Inv(s) && Jammed(s, i)
    ensures Halted(s, i)
  {
    forall w | 0 <= w < 2 ensures s.workers[w].pc != Work {
      assert WorkerOk(s, w);
    }
    forall j | 0 <= j < |s.callers| && j != i ensures !HoldsControl(s.callers[j]) {
      assert CallerOk(s, j);
    }
  }
}
