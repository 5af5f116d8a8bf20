/** A worker that gave way to callers comes back: it takes its mutex again and starts another pass. */
module ControlReturn {
  import opened MachineTypes
  import opened ControlSpec
  import opened Control
  import opened ControlProgress

  // The start of a pass over the systems.
  predicate Starting(s: State, k: nat)
    requires Shape(s) && k < 2
  {
    s.workers[k].pc == Work && s.workers[k].seen == []
  }

  // The worker's own steps to the next start of a pass, if no caller comes in between.
  function Distance(s: State, k: nat): int
    requires Shape(s) && k < 2
  {
    var w, n := s.workers[k], |s.systems|;
    match w.pc
    case Work => if w.seen == [] then 0 else n - |w.seen| + 4
    case Check => if w.access then 1 else 5
    case Test2 => if w.access then 2 else 3
    case Test1 => if w.access then 3 else 4
    case Lock => 2
    case Unlock => 4
    case First => 4
  }

  lemma DistanceBounds(s: State, k: nat)
    requires Inv(s) && k < 2
    ensures 0 <= Distance(s, k) <= |s.systems| + 5 && (Distance(s, k) == 0 <==> Starting(s, k))
  {
    assert WorkerOk(s, k);
  }

  // Without callers inside, nobody but a worker holds its mutex.
  lemma OwnMutex(s: State, k: nat)
    requires Inv(s) && k < 2 && s.controlmod == 0
    ensures s.locks[k] == None || s.locks[k] == Some(Worker(k))
  {
    assert OwnerOk(s, k);
    forall i | 0 <= i < |s.callers| ensures s.locks[k] != Some(Caller(i)) {
      assert CallerOk(s, i);
      if Inside(s.callers[i]) {
        CountSome(s.callers, i);
      }
    }
  }

  // Each step of its own brings the worker one closer, and it never has to wait.
  lemma OwnStep(s: State, k: nat)
    requires Inv(s) && k < 2 && s.controlmod == 0 && !Starting(s, k)
    ensures Enabled(s, Worker(k))
    ensures var s' := Next(s, Worker(k));
            && Shape(s') && Distance(s', k) == Distance(s, k) - 1
            && s'.controlmod == 0 && s'.systems == s.systems && s'.callers == s.callers
            && s'.workers[1 - k] == s.workers[1 - k]
  {
    OwnMutex(s, k);
    assert WorkerOk(s, k);
  }

  // No step of the other worker changes that.
  lemma OtherStep(s: State, k: nat)
    requires Inv(s) && k < 2 && Enabled(s, Worker(1 - k))
    ensures var s' := Next(s, Worker(1 - k)); Shape(s') && s'.workers[k] == s.workers[k] && s'.systems == s.systems
  {}

  // How often worker `k` is scheduled.
  function Turns(ts: seq<Thread>, k: nat): nat {
    if |ts| == 0 then 0 else Turns(ts[..|ts| - 1], k) + if ts[|ts| - 1] == Worker(k) then 1 else 0
  }

  ghost predicate NoCaller(ss: seq<State>) { forall j :: 0 <= j < |ss| ==> ss[j].controlmod == 0 }

  ghost predicate Starts(ss: seq<State>, k: nat)
    requires k < 2
  {
    exists j :: 0 <= j < |ss| && Shape(ss[j]) && Starting(ss[j], k)
  }

  /** However the threads are scheduled: as long as no caller is inside, a worker that gets at most five
      turns more than there are systems starts a pass. */
  lemma WorkerReturns(ss: seq<State>, ts: seq<Thread>, k: nat)
    requires IsRun(ss, ts) && Reached(ss[0]) && k < 2
    ensures NoCaller(ss) && Turns(ts, k) >= |ss[0].systems| + 5 ==> Starts(ss, k)
  {
    hide Reached, Inv, Next, Enabled;
    if NoCaller(ss) && Turns(ts, k) >= |ss[0].systems| + 5 && !Starts(ss, k) {
      ReachedInv(ss[0]);
      InvShape(ss[0]);
      DistanceBounds(ss[0], k);
      DistanceRun(ss, ts, k);
      RunInv(ss, ts, |ts|);
      InvShape(ss[|ts|]);
      DistanceBounds(ss[|ts|], k);
    }
  }

  lemma {:induction false} DistanceRun(ss: seq<State>, ts: seq<Thread>, k: nat)
    requires IsRun(ss, ts) && Inv(ss[0]) && k < 2 && NoCaller(ss) && !Starts(ss, k)
    ensures Shape(ss[0]) && Shape(ss[|ts|])
    ensures ss[|ts|].systems == ss[0].systems && Distance(ss[|ts|], k) == Distance(ss[0], k) - Turns(ts, k)
  {
    hide Inv, Next, Enabled, Distance;
    InvShape(ss[0]);
    RunInv(ss, ts, |ts|);
    InvShape(ss[|ts|]);
    if |ts| > 0 {
      var n := |ts| - 1;
      assert ss[..n + 1][|ts[..n]|] == ss[n];
      FrontRun(ss, ts, k);
      DistanceRun(ss[..n + 1], ts[..n], k);
      RunInv(ss, ts, n);
      assert ss[n + 1] == Next(ss[n], ts[n]);
      assert !Starting(ss[n], k);
      if ts[n] == Worker(k) {
        OwnStep(ss[n], k);
      } else {
        OthersStep(ss[n], ts[n], k);
      }
    }
  }

  lemma FrontRun(ss: seq<State>, ts: seq<Thread>, k: nat)
    requires IsRun(ss, ts) && |ts| > 0 && k < 2 && NoCaller(ss) && !Starts(ss, k)
    ensures IsRun(ss[..|ts|], ts[..|ts| - 1]) && NoCaller(ss[..|ts|]) && !Starts(ss[..|ts|], k)
  {
    hide Next, Enabled, Starting;
    assert forall j :: 0 <= j < |ts| ==> ss[..|ts|][j] == ss[j];
  }

  // While no caller is inside, a step of another thread is one of the other worker.
  lemma OthersStep(s: State, t: Thread, k: nat)
    requires Inv(s) && k < 2 && Enabled(s, t) && t != Worker(k) && s.controlmod == 0 && Next(s, t).controlmod == 0
    ensures Shape(Next(s, t)) && Distance(Next(s, t), k) == Distance(s, k) && Next(s, t).systems == s.systems
  {
    match t
    case Worker(j) => OtherStep(s, k);
    case Caller(i) =>
      assert CallerOk(s, i);
      if Inside(s.callers[i]) {
        CountSome(s.callers, i);
      }
  }

  lemma {:induction false} OwnRun(s: State, k: nat) returns (ss: seq<State>, ts: seq<Thread>)
    requires Inv(s) && k < 2 && s.controlmod == 0
    ensures IsRun(ss, ts) && ss[0] == s && |ts| <= |s.systems| + 5 && Inv(ss[|ts|]) && Starting(ss[|ts|], k)
    ensures forall j :: 0 <= j < |ts| ==> ts[j] == Worker(k)
    ensures var s' := ss[|ts|]; s'.callers == s.callers && s'.controlmod == 0 && s'.workers[1 - k] == s.workers[1 - k]
  {
    InvShape(s);
    DistanceBounds(s, k);
    ss, ts := OwnRunOf(s, k, Distance(s, k));
  }

  lemma {:induction false} OwnRunOf(s: State, k: nat, d: nat) returns (ss: seq<State>, ts: seq<Thread>)
    requires Inv(s) && k < 2 && s.controlmod == 0 && Distance(s, k) == d
    ensures IsRun(ss, ts) && ss[0] == s && |ts| == d && Inv(ss[|ts|]) && Starting(ss[|ts|], k)
    ensures forall j :: 0 <= j < |ts| ==> ts[j] == Worker(k)
    ensures var s' := ss[|ts|]; s'.callers == s.callers && s'.controlmod == 0 && s'.workers[1 - k] == s.workers[1 - k]
    decreases d
  {
    hide Inv, Next, Enabled, Distance, Starting;
    InvShape(s);
    DistanceBounds(s, k);
    if d == 0 {
      return [s], [];
    }
    OwnStep(s, k);
    NextKeeps(s, Worker(k));
    ss, ts := OwnRunOf(Next(s, Worker(k)), k, d - 1);
    PrependStep(s, Worker(k), ss, ts);
    ss, ts := [s] + ss, [Worker(k)] + ts;
  }

  lemma RunConcat(ss: seq<State>, ts: seq<Thread>, us: seq<State>, vs: seq<Thread>)
    requires IsRun(ss, ts) && IsRun(us, vs) && us[0] == ss[|ts|]
    ensures var rs, qs := ss[..|ts|] + us, ts + vs; IsRun(rs, qs) && rs[0] == ss[0] && rs[|qs|] == us[|vs|]
  {
    hide Next, Enabled, Shape;
    var rs, qs := ss[..|ts|] + us, ts + vs;
    forall k | 0 <= k < |qs| ensures Shape(rs[k]) && Enabled(rs[k], qs[k]) && rs[k + 1] == Next(rs[k], qs[k]) {
      if k < |ts| {
        assert rs[k] == ss[k] && qs[k] == ts[k] && rs[k + 1] == ss[k + 1];
      } else {
        assert rs[k] == us[k - |ts|] && qs[k] == vs[k - |ts|] && rs[k + 1] == us[k - |ts| + 1];
      }
    }
  }

  lemma NoneInside(s: State)
    requires Inv(s) && AllFinished(s)
    ensures s.controlmod == 0
  {
    forall i | 0 <= i < |s.callers| ensures !Inside(s.callers[i]) {
      assert Finished(s.callers[i]);
    }
    CountNone(s.callers);
  }

  /** From every state that callers with systems of their own reach, there is a schedule after which
      all of them have finished and both workers start a pass: no deadlock, and service goes on. */
  lemma CanFinish(s: State, owner: Sys -> nat) returns (ss: seq<State>, ts: seq<Thread>)
    requires Inv(s) && Used(s, owner)
    ensures IsRun(ss, ts) && ss[0] == s && AllFinished(ss[|ts|])
    ensures Shape(ss[|ts|]) && Starting(ss[|ts|], RECEIVE) && Starting(ss[|ts|], CONTROL)
  {
    hide Inv, Next, Enabled, Used, Starting;
    ss, ts := CallersFinish(s, owner);
    RunInv(ss, ts, |ts|);
    NoneInside(ss[|ts|]);
    InvShape(ss[|ts|]);
    var us, vs := OwnRun(ss[|ts|], RECEIVE);
    RunConcat(ss, ts, us, vs);
    ss, ts := ss[..|ts|] + us, ts + vs;
    InvShape(ss[|ts|]);
    us, vs := OwnRun(ss[|ts|], CONTROL);
    StartingKept(ss[|ts|], us[|vs|], RECEIVE);
    RunConcat(ss, ts, us, vs);
    ss, ts := ss[..|ts|] + us, ts + vs;
    InvShape(ss[|ts|]);
  }

  lemma StartingKept(s: State, s': State, k: nat)
    requires Inv(s) && Inv(s') && k < 2 && Starting(s, k) && s'.workers[k] == s.workers[k]
    ensures Starting(s', k)
  {}
}
