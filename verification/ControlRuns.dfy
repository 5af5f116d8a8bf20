/** Runs of `ControlSpec` that show what can happen, and the exact condition for a caller to get
    stuck. */
module ControlRuns {
  import opened MachineTypes
  import Registry
  import opened ControlSpec
  import opened Control

  lemma ReachedStart(s: State)
    requires Start(s)
    ensures Reached(s)
  {
    var ts: seq<Thread> := [];
    assert IsRun([s], ts) && [s][|ts|] == s;
  }

  lemma ReachedStep(s: State, t: Thread)
    requires Reached(s) && Enabled(s, t)
    ensures Reached(Next(s, t))
  {
    hide Next, Enabled, Start;
    var ss, ts :| IsRun(ss, ts) && Start(ss[0]) && ss[|ts|] == s;
    ReachedInv(s);
    NextKeeps(s, t);
    InvShape(Next(s, t));
    var ss', ts' := ss + [Next(s, t)], ts + [t];
    assert IsRun(ss', ts') && ss'[0] == ss[0] && ss'[|ts'|] == Next(s, t);
  }

  function Fresh(callers: seq<CallerState>): State {
    State(0, [None, None], [], [WorkerState(First, true, []), WorkerState(First, true, [])], callers)
  }

  // ---- A caller that gets stuck ----

  // The state of a single caller that the workers leave alone.
  function Alone(controlmod: int, locks: seq<Option<Thread>>, systems: seq<Sys>, pc: CallerPc, ops: seq<Op>): State {
    State(controlmod, locks, systems, [WorkerState(First, true, []), WorkerState(First, true, [])],
          [CallerState(pc, ops)])
  }

  // It registers or unregisters a system in seven steps, or gets stuck after four.
  lemma ToCritical(systems: seq<Sys>, ops: seq<Op>)
    requires Reached(Alone(0, [None, None], systems, Outside, ops)) && ops != []
    ensures Reached(Alone(1, [Some(Caller(0)), Some(Caller(0))], systems, Critical, ops))
  {
    hide Reached;
    var me := Some(Caller(0));
    ReachedStep(Alone(0, [None, None], systems, Outside, ops), Caller(0));
    assert Next(Alone(0, [None, None], systems, Outside, ops), Caller(0))
        == Alone(1, [None, None], systems, LockControl, ops);
    ReachedStep(Alone(1, [None, None], systems, LockControl, ops), Caller(0));
    assert Next(Alone(1, [None, None], systems, LockControl, ops), Caller(0))
        == Alone(1, [None, me], systems, LockReceive, ops);
    ReachedStep(Alone(1, [None, me], systems, LockReceive, ops), Caller(0));
    assert Next(Alone(1, [None, me], systems, LockReceive, ops), Caller(0))
        == Alone(1, [me, me], systems, Critical, ops);
  }

  lemma FromCritical(systems: seq<Sys>, ops: seq<Op>)
    requires Reached(Alone(1, [Some(Caller(0)), Some(Caller(0))], systems, Critical, ops))
    requires ops != [] && !Duplicate(systems, ops[0])
    ensures Reached(Alone(0, [None, None], ListAfter(systems, ops[0]), Outside, ops[1..]))
  {
    hide Reached, ListAfter;
    var me, after := Some(Caller(0)), ListAfter(systems, ops[0]);
    ReachedStep(Alone(1, [me, me], systems, Critical, ops), Caller(0));
    assert Next(Alone(1, [me, me], systems, Critical, ops), Caller(0)) == Alone(1, [me, me], after, UnlockReceive, ops);
    ReachedStep(Alone(1, [me, me], after, UnlockReceive, ops), Caller(0));
    assert Next(Alone(1, [me, me], after, UnlockReceive, ops), Caller(0))
        == Alone(1, [None, me], after, UnlockControl, ops);
    ReachedStep(Alone(1, [None, me], after, UnlockControl, ops), Caller(0));
    assert Next(Alone(1, [None, me], after, UnlockControl, ops), Caller(0))
        == Alone(1, [None, None], after, Decrement, ops);
    ReachedStep(Alone(1, [None, None], after, Decrement, ops), Caller(0));
    assert Next(Alone(1, [None, None], after, Decrement, ops), Caller(0))
        == Alone(0, [None, None], after, Outside, ops[1..]);
  }

  /** A caller that registers the same system twice does get stuck. */
  lemma TwiceGetsStuck(x: Sys)
    ensures exists s :: Reached(s) && IsStuck(s, 0)
  {
    hide Reached;
    var ops := [Init(x), Init(x)];
    ReachedStart(Fresh([CallerState(Outside, ops)]));
    ToCritical([], ops);
    FromCritical([], ops);
    assert ops[1..] == [Init(x)] && ListAfter([], Init(x)) == [x];
    ToCritical([x], [Init(x)]);
    var s := Alone(1, [Some(Caller(0)), Some(Caller(0))], [x], Critical, [Init(x)]);
    ReachedStep(s, Caller(0));
    assert IsStuck(Next(s, Caller(0)), 0);
  }

  // ---- Both workers at work ----

  // Without callers, a worker that has not started gets into its loop.
  lemma WorkerStarts(s: State, k: nat) returns (s': State)
    requires Reached(s) && k < 2 && s.controlmod == 0 && s.locks[k] == None
          && s.workers[k] == WorkerState(First, true, [])
    ensures Reached(s') && s'.workers[k].pc == Work && s'.controlmod == 0
    ensures s'.workers[1 - k] == s.workers[1 - k] && s'.locks[1 - k] == s.locks[1 - k]
  {
    hide Reached, Inv;
    ReachedInv(s);
    InvShape(s);
    ReachedStep(s, Worker(k));
    var s1 := Next(s, Worker(k));
    ReachedStep(s1, Worker(k));
    var s2 := Next(s1, Worker(k));
    ReachedStep(s2, Worker(k));
    var s3 := Next(s2, Worker(k));
    ReachedStep(s3, Worker(k));
    s' := Next(s3, Worker(k));
  }

  /** The two workers' mutexes keep callers out, not each other: both can be in their loops at once. */
  lemma BothAtWork()
    ensures exists s :: Reached(s) && s.workers[RECEIVE].pc == Work && s.workers[CONTROL].pc == Work
  {
    hide Reached;
    ReachedStart(Fresh([]));
    var s1 := WorkerStarts(Fresh([]), RECEIVE);
    var s2 := WorkerStarts(s1, CONTROL);
  }

  // ---- The order of the critical sections decides ----

  // The operation whose critical section a step runs.
  function Ran(s: State, t: Thread): seq<Op>
    requires Shape(s) && Enabled(s, t)
  {
    if t.Caller? && s.callers[t.i].pc == Critical && s.callers[t.i].ops != [] then [s.callers[t.i].ops[0]] else []
  }

  // The operations of a run in the order of their critical sections.
  function Order(ss: seq<State>, ts: seq<Thread>): seq<Op>
    requires IsRun(ss, ts)
  {
    if |ts| == 0 then []
    else
      var n := |ts| - 1;
      Order(ss[..n + 1], ts[..n]) + Ran(ss[n], ts[n])
  }

  // The list after these operations.
  function After(ops: seq<Op>): seq<Sys> {
    if |ops| == 0 then [] else ListAfter(After(ops[..|ops| - 1]), ops[|ops| - 1])
  }

  // Every registration comes when the system is not registered.
  predicate InTurn(ops: seq<Op>) {
    |ops| == 0 || (InTurn(ops[..|ops| - 1]) && !Duplicate(After(ops[..|ops| - 1]), ops[|ops| - 1]))
  }

  ghost predicate NoneIsStuck(s: State) { forall i :: !IsStuck(s, i) }

  /** Exactly when a run goes wrong: after any run, with any callers, some caller is stuck if and only
      if in the order in which the critical sections ran a system was registered twice. Until then
      the list is what that order makes it. */
  lemma {:induction false} StuckOrder(ss: seq<State>, ts: seq<Thread>)
    requires IsRun(ss, ts) && Start(ss[0])
    ensures NoneIsStuck(ss[|ts|]) <==> InTurn(Order(ss, ts))
    ensures InTurn(Order(ss, ts)) ==> ss[|ts|].systems == After(Order(ss, ts))
  {
    hide Next, Enabled, Duplicate, ListAfter, Ran, Start, Inv;
    StartInv(ss[0]);
    RunInv(ss, ts, |ts|);
    if |ts| == 0 {
      NoneStuckAtStart(ss[0]);
    } else {
      var n := |ts| - 1;
      var s, t := ss[n], ts[n];
      var before := Order(ss[..n + 1], ts[..n]);
      StuckOrder(ss[..n + 1], ts[..n]);
      RunInv(ss, ts, n);
      assert ss[n + 1] == Next(s, t);
      if NoneIsStuck(s) {
        OrderStep(s, t);
        OrderSnoc(before, Ran(s, t));
      } else {
        StuckStays(s, t);
        assert before + [] == before;
      }
    }
  }

  lemma NoneStuckAtStart(s: State)
    requires Start(s)
    ensures NoneIsStuck(s) && s.systems == []
  {}

  // A step from a state in which none is stuck.
  lemma OrderStep(s: State, t: Thread)
    requires Inv(s) && Enabled(s, t) && NoneIsStuck(s)
    ensures |Ran(s, t)| <= 1
    ensures Ran(s, t) == [] ==> NoneIsStuck(Next(s, t)) && Next(s, t).systems == s.systems
    ensures Ran(s, t) != [] ==>
              && (NoneIsStuck(Next(s, t)) <==> !Duplicate(s.systems, Ran(s, t)[0]))
              && (!Duplicate(s.systems, Ran(s, t)[0]) ==> Next(s, t).systems == ListAfter(s.systems, Ran(s, t)[0]))
  {
    hide Duplicate, ListAfter;
    var s' := Next(s, t);
    if t.Caller? {
      assert CallerOk(s, t.i);
      if Ran(s, t) != [] && Duplicate(s.systems, Ran(s, t)[0]) {
        assert IsStuck(s', t.i);
      } else {
        forall i ensures !IsStuck(s', i) {
          assert !IsStuck(s, i);
        }
      }
    } else {
      forall i ensures !IsStuck(s', i) {
        assert !IsStuck(s, i);
      }
    }
  }

  lemma OrderSnoc(ops: seq<Op>, more: seq<Op>)
    requires |more| <= 1
    ensures more == [] ==> ops + more == ops
    ensures |more| == 1 ==> After(ops + more) == ListAfter(After(ops), more[0])
    ensures |more| == 1 ==> (InTurn(ops + more) <==> InTurn(ops) && !Duplicate(After(ops), more[0]))
  {
    hide Duplicate, ListAfter;
    if |more| == 1 {
      assert (ops + more)[..|ops + more| - 1] == ops;
    }
  }

  // A stuck caller stays stuck, and no critical section runs.
  lemma StuckStays(s: State, t: Thread)
    requires Inv(s) && Enabled(s, t) && !NoneIsStuck(s)
    ensures !NoneIsStuck(Next(s, t)) && Ran(s, t) == []
  {
    var i :| IsStuck(s, i);
    assert CallerOk(s, i);
    JammedStep(s, t, i);
    assert IsStuck(Next(s, t), i);
    if t.Caller? {
      assert CallerOk(s, t.i);
    }
  }

  // ---- The list after operations in turn ----

  // How many operations there are up to the last one on `x`; none if there is none.
  function LastOn(ops: seq<Op>, x: Sys): (k: nat)
    ensures k <= |ops| && (k > 0 ==> ops[k - 1].s == x)
  {
    if |ops| == 0 then 0 else if ops[|ops| - 1].s == x then |ops| else LastOn(ops[..|ops| - 1], x)
  }

  ghost predicate Descending(systems: seq<Sys>, ops: seq<Op>) {
    forall i, j :: 0 <= i < j < |systems| ==> LastOn(ops, systems[i]) > LastOn(ops, systems[j])
  }

  lemma {:induction false} DescendingWithout(s: seq<Sys>, x: Sys, ops: seq<Op>)
    requires Descending(s, ops)
    ensures Descending(Registry.Without(s, (y: Sys) => y == x), ops)
  {
    hide LastOn;
    if |s| > 0 {
      var drop := (y: Sys) => y == x;
      var front := s[..|s| - 1];
      DescendingWithout(front, x, ops);
      Registry.WithoutMembers(front, drop);
      forall k | 0 <= k < |Registry.Without(front, drop)|
        ensures LastOn(ops, Registry.Without(front, drop)[k]) > LastOn(ops, s[|s| - 1])
      {
        assert Registry.Without(front, drop)[k] in front;
      }
    }
  }

  // An operation on another system does not count for the members of a list.
  lemma DescendingSnoc(systems: seq<Sys>, ops: seq<Op>, op: Op)
    requires Descending(systems, ops) && op.s !in systems
    ensures Descending(systems, ops + [op])
  {
    forall y | y in systems ensures LastOn(ops + [op], y) == LastOn(ops, y) {
      LastOnSnoc(ops, op, y);
    }
    hide LastOn;
  }

  lemma LastOnSnoc(ops: seq<Op>, op: Op, x: Sys)
    ensures LastOn(ops + [op], x) == if x == op.s then |ops| + 1 else LastOn(ops, x)
  {
    assert (ops + [op])[..|ops|] == ops;
  }

  ghost predicate IsListed(ops: seq<Op>, x: Sys) { LastOn(ops, x) > 0 && ops[LastOn(ops, x) - 1].Init? }

  lemma IsListedSnoc(ops: seq<Op>, op: Op, x: Sys)
    ensures IsListed(ops + [op], x) <==> if x == op.s then op.Init? else IsListed(ops, x)
  {
    LastOnSnoc(ops, op, x);
  }

  /** As long as no system is registered twice: the list holds exactly the systems whose last operation
      was a registration, each once, the latest first. */
  lemma {:induction false} LatestFirst(ops: seq<Op>)
    requires InTurn(ops)
    ensures forall x :: x in After(ops) <==> IsListed(ops, x)
    ensures Descending(After(ops), ops)
  {
    if |ops| > 0 {
      var before, op := ops[..|ops| - 1], ops[|ops| - 1];
      var list := After(before);
      assert ops == before + [op];
      LatestFirst(before);
      hide LastOn, IsListed, Descending;
      OneMore(before, op, list);
    } else {
      assert forall x :: !IsListed(ops, x);
    }
  }

  lemma OneMore(ops: seq<Op>, op: Op, list: seq<Sys>)
    requires (forall x :: x in list <==> IsListed(ops, x)) && Descending(list, ops) && !Duplicate(list, op)
    ensures forall x :: x in ListAfter(list, op) <==> IsListed(ops + [op], x)
    ensures Descending(ListAfter(list, op), ops + [op])
  {
    hide IsListed, Descending, LastOn;
    forall x ensures x in ListAfter(list, op) <==> IsListed(ops + [op], x) {
      IsListedSnoc(ops, op, x);
      Registry.WithoutMembers(list, (y: Sys) => y == op.s);
    }
    if op.Init? {
      DescendingSnoc(list, ops, op);
      DescendingFirst(list, ops, op);
    } else {
      Registry.WithoutMembers(list, (y: Sys) => y == op.s);
      DescendingWithout(list, op.s, ops);
      DescendingSnoc(Registry.Without(list, (y: Sys) => y == op.s), ops, op);
    }
  }

  lemma DescendingFirst(list: seq<Sys>, ops: seq<Op>, op: Op)
    requires Descending(list, ops + [op]) && op.s !in list
    ensures Descending([op.s] + list, ops + [op])
  {
    LastOnSnoc(ops, op, op.s);
    forall y | y in list ensures LastOn(ops + [op], y) < |ops| + 1 {
      LastOnSnoc(ops, op, y);
    }
    hide LastOn;
  }
}
