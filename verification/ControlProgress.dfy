/** Callers that each deal with systems of their own, and register one only while it is not
    registered, never get stuck, and from every state they reach all of them can finish. */
module ControlProgress {
  import opened MachineTypes
  import opened Registry
  import opened ControlSpec
  import opened Control

  // ---- Correct use ----

  // Caller `i` deals with systems of its own, and registers one only when it is not registered;
  // `mine` are those that are.
  ghost predicate WellUsed(mine: set<Sys>, ops: seq<Op>, owner: Sys -> nat, i: nat)
    decreases |ops|
  {
    |ops| == 0 ||
    match ops[0]
    case Init(x) => owner(x) == i && x !in mine && WellUsed(mine + {x}, ops[1..], owner, i)
    case Deinit(x) => owner(x) == i && WellUsed(mine - {x}, ops[1..], owner, i)
  }

  function Own(systems: seq<Sys>, owner: Sys -> nat, i: nat): set<Sys> { set x | x in systems && owner(x) == i }

  ghost predicate UsedBy(c: CallerState, systems: seq<Sys>, owner: Sys -> nat, i: nat) {
    && c.pc != Stuck
    && if c.pc in {UnlockReceive, UnlockControl, Decrement}
       then c.ops != [] && WellUsed(Own(systems, owner, i), c.ops[1..], owner, i)
       else WellUsed(Own(systems, owner, i), c.ops, owner, i)
  }

  ghost predicate Used(s: State, owner: Sys -> nat) {
    forall i :: 0 <= i < |s.callers| ==> UsedBy(s.callers[i], s.systems, owner, i)
  }

  lemma OwnAfter(systems: seq<Sys>, op: Op, owner: Sys -> nat, i: nat)
    requires owner(op.s) == i
    ensures Own(ListAfter(systems, op), owner, i)
         == if op.Init? then Own(systems, owner, i) + {op.s} else Own(systems, owner, i) - {op.s}
    ensures forall j :: j != i ==> Own(ListAfter(systems, op), owner, j) == Own(systems, owner, j)
  {
    WithoutMembers(systems, (y: Sys) => y == op.s);
    forall j | j != i ensures Own(ListAfter(systems, op), owner, j) == Own(systems, owner, j) {}
  }

  lemma UsedStep(s: State, t: Thread, owner: Sys -> nat)
    requires Inv(s) && Used(s, owner) && Enabled(s, t)
    ensures Used(Next(s, t), owner)
  {
    hide WellUsed, Own, ListAfter;
    var s' := Next(s, t);
    match t
    case Worker(k) =>
    case Caller(i) =>
      assert CallerOk(s, i) && UsedBy(s.callers[i], s.systems, owner, i);
      if s.callers[i].pc == Critical {
        CriticalUsed(s, i, owner);
      }
      forall j | 0 <= j < |s'.callers| ensures UsedBy(s'.callers[j], s'.systems, owner, j) {
        assert UsedBy(s.callers[j], s.systems, owner, j);
      }
  }

  lemma CriticalUsed(s: State, i: nat, owner: Sys -> nat)
    requires Shape(s) && i < |s.callers| && s.callers[i].pc == Critical && s.callers[i].ops != []
    requires UsedBy(s.callers[i], s.systems, owner, i)
    ensures var op := s.callers[i].ops[0];
            && !Duplicate(s.systems, op)
            && WellUsed(Own(ListAfter(s.systems, op), owner, i), s.callers[i].ops[1..], owner, i)
            && forall j :: j != i ==> Own(ListAfter(s.systems, op), owner, j) == Own(s.systems, owner, j)
  {
    OwnAfter(s.systems, s.callers[i].ops[0], owner, i);
  }

  /** No run of such callers gets stuck. */
  lemma {:induction false} CorrectRun(ss: seq<State>, ts: seq<Thread>, owner: Sys -> nat, k: nat)
    requires IsRun(ss, ts) && Start(ss[0]) && k <= |ts|
    requires forall i :: 0 <= i < |ss[0].callers| ==> WellUsed({}, ss[0].callers[i].ops, owner, i)
    ensures Inv(ss[k]) && Used(ss[k], owner)
    ensures forall i :: 0 <= i < |ss[k].callers| ==> ss[k].callers[i].pc != Stuck
  {
    hide Inv, Next, WellUsed, Enabled;
    if k == 0 {
      StartInv(ss[0]);
      forall i ensures Own([], owner, i) == {} {}
    } else {
      CorrectRun(ss, ts, owner, k - 1);
      assert ss[k - 1 + 1] == Next(ss[k - 1], ts[k - 1]);
      NextKeeps(ss[k - 1], ts[k - 1]);
      UsedStep(ss[k - 1], ts[k - 1], owner);
    }
    assert forall i :: 0 <= i < |ss[k].callers| ==> UsedBy(ss[k].callers[i], ss[k].systems, owner, i);
  }

  // ---- Progress ----

  function Done(pc: CallerPc): nat {
    match pc
    case Outside => 0
    case LockControl => 1
    case LockReceive => 2
    case Critical => 3
    case UnlockReceive => 4
    case UnlockControl => 5
    case Decrement => 6
    case Stuck => 7
  }

  // The steps that are left.
  function CallerRank(c: CallerState): int { 8 * |c.ops| - Done(c.pc) }

  function SumRank(cs: seq<CallerState>): int {
    if |cs| == 0 then 0 else SumRank(cs[..|cs| - 1]) + CallerRank(cs[|cs| - 1])
  }

  lemma {:induction false} SumUpdate(cs: seq<CallerState>, i: nat, c: CallerState)
    requires i < |cs|
    ensures SumRank(cs[i := c]) == SumRank(cs) + CallerRank(c) - CallerRank(cs[i])
  {
    var n := |cs| - 1;
    if i < n {
      assert cs[i := c][..n] == cs[..n][i := c];
      SumUpdate(cs[..n], i, c);
    } else {
      assert cs[i := c][..n] == cs[..n];
    }
  }

  lemma {:induction false} SumNat(cs: seq<CallerState>)
    requires forall i :: 0 <= i < |cs| ==> (Inside(cs[i]) ==> cs[i].ops != [])
    ensures SumRank(cs) >= 0
  {
    if |cs| > 0 {
      SumNat(cs[..|cs| - 1]);
      assert Inside(cs[|cs| - 1]) ==> cs[|cs| - 1].ops != [];
    }
  }

  // The steps until a worker gives up its mutex, if it sees a caller inside.
  function WorkerRank(s: State, k: nat): int
    requires Shape(s) && k < 2
  {
    var w, n := s.workers[k], |s.systems|;
    if !WorkerHolds(w) then 0
    else match w.pc
      case Unlock => 1
      case Test1 => 2
      case Work => n - |w.seen| + 3
      case Check => n + 4
      case _ => n + 5
  }

  function WorkersRank(s: State): int
    requires Shape(s)
  {
    WorkerRank(s, 0) + WorkerRank(s, 1)
  }

  ghost predicate Lower(s': State, s: State)
    requires Shape(s') && Shape(s)
  {
    SumRank(s'.callers) < SumRank(s.callers)
    || (SumRank(s'.callers) == SumRank(s.callers) && WorkersRank(s') < WorkersRank(s))
  }

  lemma RanksAreNat(s: State)
    requires Inv(s)
    ensures SumRank(s.callers) >= 0 && WorkersRank(s) >= 0
  {
    forall i | 0 <= i < |s.callers| ensures Inside(s.callers[i]) ==> s.callers[i].ops != [] {
      assert CallerOk(s, i);
    }
    SumNat(s.callers);
    assert WorkerOk(s, 0) && WorkerOk(s, 1);
  }

  lemma CallerLowers(s: State, i: nat)
    requires Inv(s) && Enabled(s, Caller(i))
    ensures Shape(Next(s, Caller(i))) && Lower(Next(s, Caller(i)), s)
  {
    assert CallerOk(s, i);
    SumUpdate(s.callers, i, Next(s, Caller(i)).callers[i]);
  }

  lemma WorkerLowers(s: State, k: nat)
    requires Inv(s) && k < 2 && s.locks[k] == Some(Worker(k)) && s.controlmod > 0
    ensures Enabled(s, Worker(k)) && Shape(Next(s, Worker(k))) && Lower(Next(s, Worker(k)), s)
  {
    assert WorkerOk(s, 0) && WorkerOk(s, 1);
  }

  predicate Finished(c: CallerState) { c.pc == Outside && c.ops == [] }

  ghost predicate Helps(s: State, t: Thread)
    requires Shape(s)
  {
    Enabled(s, t) && Shape(Next(s, t)) && Lower(Next(s, t), s)
  }

  lemma ReceiveHolder(s: State, i: nat)
    requires Inv(s) && i < |s.callers| && s.callers[i].pc == LockReceive
    ensures s.locks[RECEIVE] == None || s.locks[RECEIVE] == Some(Worker(RECEIVE))
  {
    assert CallerOk(s, i) && OwnerOk(s, RECEIVE);
    forall j | 0 <= j < |s.callers| ensures s.locks[RECEIVE] != Some(Caller(j)) {
      assert CallerOk(s, j);
    }
  }

  // The thread to run so that caller `i`, which holds `controllock`, comes closer to its end.
  lemma HolderProgress(s: State, i: nat) returns (t: Thread)
    requires Inv(s) && i < |s.callers| && HoldsControl(s.callers[i]) && s.callers[i].pc != Stuck
    ensures Helps(s, t)
  {
    assert CallerOk(s, i);
    CountSome(s.callers, i);
    t := Caller(i);
    if s.callers[i].pc == LockReceive && s.locks[RECEIVE] != None {
      ReceiveHolder(s, i);
      t := Worker(RECEIVE);
      WorkerLowers(s, RECEIVE);
    } else {
      CallerLowers(s, i);
    }
  }

  /** As long as a caller is not finished and none is stuck, some thread can take a step that comes
      closer to the end. */
  lemma Progress(s: State, i: nat) returns (t: Thread)
    requires Inv(s) && i < |s.callers| && !Finished(s.callers[i])
    requires forall j :: 0 <= j < |s.callers| ==> s.callers[j].pc != Stuck
    ensures Helps(s, t)
  {
    assert CallerOk(s, i);
    if HoldsControl(s.callers[i]) {
      t := HolderProgress(s, i);
    } else if s.callers[i].pc == LockControl && s.locks[CONTROL] != None {
      assert OwnerOk(s, CONTROL);
      t := s.locks[CONTROL].value;
      CountSome(s.callers, i);
      if t.Worker? {
        WorkerLowers(s, CONTROL);
      } else {
        assert CallerOk(s, t.i);
        t := HolderProgress(s, t.i);
      }
    } else {
      t := Caller(i);
      CallerLowers(s, i);
    }
  }

  ghost predicate AllFinished(s: State) { forall i :: 0 <= i < |s.callers| ==> Finished(s.callers[i]) }

  // From every state that such callers reach, there is a schedule after which all of them have
  // finished.
  lemma CallersFinish(s: State, owner: Sys -> nat) returns (ss: seq<State>, ts: seq<Thread>)
    requires Inv(s) && Used(s, owner)
    ensures IsRun(ss, ts) && ss[0] == s && AllFinished(ss[|ts|])
    decreases SumRank(s.callers), WorkersRank(s)
  {
    hide Inv, Next, WellUsed, Enabled, SumRank, WorkersRank, UsedBy;
    RanksAreNat(s);
    if AllFinished(s) {
      return [s], [];
    }
    var i :| 0 <= i < |s.callers| && !Finished(s.callers[i]);
    NoneStuck(s, owner);
    var t := Progress(s, i);
    InvShape(s);
    NextKeeps(s, t);
    UsedStep(s, t, owner);
    RanksAreNat(Next(s, t));
    ss, ts := CallersFinish(Next(s, t), owner);
    PrependStep(s, t, ss, ts);
    ss, ts := [s] + ss, [t] + ts;
  }

  lemma NoneStuck(s: State, owner: Sys -> nat)
    requires Used(s, owner)
    ensures forall j :: 0 <= j < |s.callers| ==> s.callers[j].pc != Stuck
  {
    forall j | 0 <= j < |s.callers| ensures s.callers[j].pc != Stuck {
      assert UsedBy(s.callers[j], s.systems, owner, j);
    }
  }

  lemma PrependStep(s: State, t: Thread, ss: seq<State>, ts: seq<Thread>)
    requires Shape(s) && Enabled(s, t) && IsRun(ss, ts) && ss[0] == Next(s, t)
    ensures IsRun([s] + ss, [t] + ts) && ([s] + ss)[|[t] + ts|] == ss[|ts|]
  {
    hide Next, Enabled, Shape;
    var us, vs := [s] + ss, [t] + ts;
    forall k | 0 <= k < |vs|
      ensures Shape(us[k]) && Enabled(us[k], vs[k]) && us[k + 1] == Next(us[k], vs[k])
    {
      if k > 0 {
        assert us[k] == ss[k - 1] && vs[k] == ts[k - 1] && us[k + 1] == ss[k - 1 + 1];
      }
    }
  }
}
