/** The generator of src/arc4random.cpp as a state machine on values: what one draw and one
    seeding do to the indices and the permutation, and what no run can change. */
module Arc4 {
  import opened MachineTypes

  // Eight-bit unsigned arithmetic.
  function Add8(x: nat, y: nat): uint8 { (x + y) % 256 }
  function Sub8(x: uint8, y: uint8): uint8 { (x + 256 - y) % 256 }

  // `rs` of the source: two indices and the table.
  datatype Stream = Stream(i: uint8, j: uint8, s: seq<uint8>)

  function Swap(s: seq<uint8>, i: nat, j: nat): (r: seq<uint8>)
    requires i < |s| && j < |s|
    ensures |r| == |s|
  {
    s[i := s[j]][j := s[i]]
  }

  function Identity(): (s: seq<uint8>)
    ensures |s| == 256 && forall n: uint8 :: s[n] == n
  {
    seq(256, n requires 0 <= n < 256 => n)
  }

  function Fresh(): Stream { Stream(0, 0, Identity()) }

  // The state after one draw, and the byte drawn.
  function Next(t: Stream): Stream
    requires |t.s| == 256
  {
    var i := Add8(t.i, 1);
    var j := Add8(t.j, t.s[i]);
    Stream(i, j, Swap(t.s, i, j))
  }

  function Drawn(t: Stream): uint8
    requires |t.s| == 256
  {
    var i := Add8(t.i, 1);
    var j := Add8(t.j, t.s[i]);
    Swap(t.s, i, j)[Add8(t.s[i], t.s[j])]
  }

  // One turn of the seeding loop, with the key byte it adds.
  function Mix(t: Stream, k: uint8): Stream
    requires |t.s| == 256
  {
    var i := Add8(t.i, 1);
    var j := Add8(Add8(t.j, t.s[i]), k);
    Stream(i, j, Swap(t.s, i, j))
  }

  function Mixes(t: Stream, dat: seq<uint8>, n: nat): (r: Stream)
    requires |t.s| == 256 && |dat| > 0
    ensures |r.s| == 256
  {
    if n == 0 then t else Mix(Mixes(t, dat, n - 1), dat[(n - 1) % |dat|])
  }

  // `arc4_addrandom`.
  function AddRandom(t: Stream, dat: seq<uint8>): (r: Stream)
    requires |t.s| == 256 && |dat| > 0
    ensures |r.s| == 256
  {
    var m := Mixes(Stream(Sub8(t.i, 1), t.j, t.s), dat, 256);
    Stream(m.i, m.i, m.s)
  }

  function Draws(t: Stream, n: nat): (r: Stream)
    requires |t.s| == 256
    ensures |r.s| == 256
  {
    if n == 0 then t else Next(Draws(t, n - 1))
  }

  // ---- The bytes drawn ----

  // `n` draws in a row.
  function Keystream(t: Stream, n: nat): (b: seq<uint8>)
    requires |t.s| == 256
    ensures |b| == n
  {
    if n == 0 then [] else Keystream(t, n - 1) + [Drawn(Draws(t, n - 1))]
  }

  // RC4's output loop as published, from any indices and table.
  function OutputLoop(i: uint8, j: uint8, s: seq<uint8>, n: nat): (b: seq<uint8>)
    requires |s| == 256
    ensures |b| == n
    decreases n
  {
    if n == 0 then []
    else
      var i1 := (i as int + 1) % 256;
      var j1 := (j as int + s[i1]) % 256;
      var s1 := s[i1 := s[j1]][j1 := s[i1]];
      [s1[(s1[i1] as int + s1[j1]) % 256]] + OutputLoop(i1, j1, s1, n - 1)
  }

  /** A draw gives the entry at the sum of the two entries it exchanged, and leaves the indices and the
      table that the published loop leaves. */
  lemma DrawIs(t: Stream)
    requires |t.s| == 256
    ensures var n := Next(t);
            && n.i == (t.i as int + 1) % 256 && n.j == (t.j as int + t.s[n.i]) % 256
            && n.s == t.s[n.i := t.s[n.j]][n.j := t.s[n.i]]
            && Drawn(t) == n.s[(n.s[n.i] as int + n.s[n.j]) % 256]
  {}

  /** Any number of draws, from any state, gives what the published loop puts out. */
  lemma {:induction false} KeystreamIs(t: Stream, n: nat)
    requires |t.s| == 256
    ensures Keystream(t, n) == OutputLoop(t.i, t.j, t.s, n)
    decreases n
  {
    hide Drawn, Next, OutputLoop;
    if n > 0 {
      DrawIs(t);
      LoopTurn(t.i, t.j, t.s, n, Next(t).i, Next(t).j);
      KeystreamIs(Next(t), n - 1);
      KeystreamFirst(t, n);
    }
  }

  lemma {:induction false} KeystreamFirst(t: Stream, n: nat)
    requires |t.s| == 256 && n > 0
    ensures |Next(t).s| == 256 && Keystream(t, n) == [Drawn(t)] + Keystream(Next(t), n - 1)
  {
    hide Drawn, Next;
    NextSize(t);
    DrawsFirst(t, n - 1);
    if n > 1 {
      KeystreamFirst(t, n - 1);
      assert Keystream(t, n) == Keystream(t, n - 1) + [Drawn(Draws(t, n - 1))];
      assert ([Drawn(t)] + Keystream(Next(t), n - 2)) + [Drawn(Draws(Next(t), n - 2))]
          == [Drawn(t)] + (Keystream(Next(t), n - 2) + [Drawn(Draws(Next(t), n - 2))]);
    } else {
      assert Draws(t, 0) == t && Keystream(t, 0) == [] && Keystream(Next(t), 0) == [];
    }
  }

  lemma {:induction false} KeystreamAt(t: Stream, n: nat, k: nat)
    requires |t.s| == 256 && k < n
    ensures Keystream(t, n)[k] == Drawn(Draws(t, k))
  {
    hide Drawn, Next;
    if k < n - 1 {
      KeystreamAt(t, n - 1, k);
    }
  }

  lemma {:induction false} DrawsAdd(t: Stream, m: nat, n: nat)
    requires |t.s| == 256
    ensures Draws(Draws(t, m), n) == Draws(t, m + n)
    decreases n
  {
    hide Next;
    if n > 0 {
      DrawsAdd(t, m, n - 1);
    }
  }

  lemma NextSize(t: Stream)
    requires |t.s| == 256
    ensures |Next(t).s| == 256
  {}

  // The first of some draws taken apart.
  lemma {:induction false} DrawsFirst(t: Stream, n: nat)
    requires |t.s| == 256
    ensures |Next(t).s| == 256 && (n > 0 ==> Draws(t, n) == Draws(Next(t), n - 1))
  {
    hide Next;
    NextSize(t);
    if n > 1 {
      DrawsFirst(t, n - 1);
    }
  }

  /** From a new table, without a seed, the first four bytes are 2, 5, 7 and 13. */
  lemma FirstBytes()
    ensures Keystream(Fresh(), 4) == [2, 5, 7, 13]
  {
    hide Identity, OutputLoop;
    KeystreamIs(Fresh(), 4);
    var s0 := Identity();
    var s2 := s0[2 := 3][3 := 2];
    var s3 := s2[3 := 5][5 := 2];
    var s4 := s3[4 := 9][9 := 4];
    assert s0[1 := 1][1 := 1] == s0;
    LoopStep(0, 0, s0, 4, 1, s0);
    LoopStep(1, 1, s0, 3, 3, s2);
    LoopStep(2, 3, s2, 2, 5, s3);
    LoopStep(3, 5, s3, 1, 9, s4);
    assert OutputLoop(4, 9, s4, 0) == [];
  }

  // One turn of the loop, for a given new index and table.
  lemma LoopStep(i: uint8, j: uint8, s: seq<uint8>, n: nat, j1: uint8, s1: seq<uint8>)
    requires |s| == |s1| == 256 && n > 0 && i < 255 && j1 == (j as int + s[i + 1]) % 256
    requires s1 == s[i + 1 := s[j1]][j1 := s[i + 1]]
    ensures OutputLoop(i, j, s, n) == [s1[(s1[i + 1] as int + s1[j1]) % 256]] + OutputLoop(i + 1, j1, s1, n - 1)
  {
    hide OutputLoop;
    LoopTurn(i, j, s, n, i + 1, j1);
  }

  lemma LoopTurn(i: uint8, j: uint8, s: seq<uint8>, n: nat, i1: uint8, j1: uint8)
    requires |s| == 256 && n > 0 && i1 == (i as int + 1) % 256 && j1 == (j as int + s[i1]) % 256
    ensures var s1 := s[i1 := s[j1]][j1 := s[i1]];
            OutputLoop(i, j, s, n) == [s1[(s1[i1] as int + s1[j1]) % 256]] + OutputLoop(i1, j1, s1, n - 1)
  {}

  // ---- The table stays a permutation ----

  // Every byte value occurs in the table exactly once.
  ghost predicate IsPermutation(s: seq<uint8>) {
    |s| == 256 && multiset(s) == multiset(Identity())
  }

  lemma SwapKeepsElements(s: seq<uint8>, i: nat, j: nat)
    requires i < |s| && j < |s|
    ensures multiset(Swap(s, i, j)) == multiset(s)
  {}

  lemma OncePerValue(s: seq<uint8>, v: uint8)
    requires IsPermutation(s)
    ensures multiset(s)[v] == 1
  {
    assert Identity()[v] == v;
    assert Identity() == Identity()[..v] + [v] + Identity()[v + 1..];
    assert v !in Identity()[..v] && v !in Identity()[v + 1..];
  }

  // ---- Finney's degenerate cycle ----

  ghost predicate Finney(t: Stream)
    requires |t.s| == 256
  {
    t.j == Add8(t.i, 1) && t.s[t.j] == 1
  }

  /** A draw enters the cycle only from inside it, and never leaves it. */
  lemma NextFinney(t: Stream)
    requires |t.s| == 256
    ensures Finney(Next(t)) <==> Finney(t)
  {}

  // ---- Runs ----

  datatype Step = Draw | Seed(dat: seq<uint8>)

  function Apply(t: Stream, step: Step): (r: Stream)
    requires |t.s| == 256 && (step.Seed? ==> |step.dat| > 0)
    ensures |r.s| == 256
  {
    match step
    case Draw => Next(t)
    case Seed(dat) => AddRandom(t, dat)
  }

  ghost predicate Runnable(steps: seq<Step>) {
    forall k :: 0 <= k < |steps| && steps[k].Seed? ==> |steps[k].dat| > 0
  }

  function Run(t: Stream, steps: seq<Step>): (r: Stream)
    requires |t.s| == 256 && Runnable(steps)
    ensures |r.s| == 256
  {
    if |steps| == 0 then t else Apply(Run(t, steps[..|steps| - 1]), steps[|steps| - 1])
  }

  lemma {:induction false} MixesPermutation(t: Stream, dat: seq<uint8>, n: nat)
    requires IsPermutation(t.s) && |dat| > 0
    ensures IsPermutation(Mixes(t, dat, n).s)
  {
    hide Add8, Swap, Identity;
    if n > 0 {
      MixesPermutation(t, dat, n - 1);
      var m := Mixes(t, dat, n - 1);
      var i := Add8(m.i, 1);
      SwapKeepsElements(m.s, i, Add8(Add8(m.j, m.s[i]), dat[(n - 1) % |dat|]));
    }
  }

  /** From `arc4_init`, after any draws and seedings in any order, the table holds every byte
      value once and the state is outside Finney's cycle. */
  lemma {:induction false} RunInvariant(steps: seq<Step>)
    requires Runnable(steps)
    ensures IsPermutation(Run(Fresh(), steps).s) && !Finney(Run(Fresh(), steps))
  {
    hide Swap, Identity, Mixes;
    if |steps| > 0 {
      var before, last := steps[..|steps| - 1], steps[|steps| - 1];
      RunInvariant(before);
      var t := Run(Fresh(), before);
      match last
      case Draw =>
        NextFinney(t);
        var i := Add8(t.i, 1);
        SwapKeepsElements(t.s, i, Add8(t.j, t.s[i]));
      case Seed(dat) =>
        MixesPermutation(Stream(Sub8(t.i, 1), t.j, t.s), dat, 256);
    }
  }

  // ---- Draws can be undone ----

  function Undo(t: Stream): Stream
    requires |t.s| == 256
  {
    var s := Swap(t.s, t.i, t.j);
    Stream(Sub8(t.i, 1), Sub8(t.j, s[t.i]), s)
  }

  lemma AddSub(x: uint8, y: uint8)
    ensures Sub8(Add8(x, y), y) == x && Add8(Sub8(x, y), y) == x
  {
    assert Add8(x, y) == if x + y < 256 then x + y else x + y - 256;
    assert Sub8(x, y) == if x < y then x + 256 - y else x - y;
  }

  /** `Undo` is the two-sided inverse of a draw. */
  lemma UndoNext(t: Stream)
    requires |t.s| == 256
    ensures Undo(Next(t)) == t
  {
    hide Swap, Add8, Sub8;
    var n := Next(t);
    SwapTwice(t.s, n.i, n.j);
    AddSub(t.i, 1);
    AddSub(t.j, t.s[n.i]);
  }

  lemma NextUndo(t: Stream)
    requires |t.s| == 256
    ensures |Undo(t).s| == 256 && Next(Undo(t)) == t
  {
    hide Swap, Add8, Sub8;
    SwapTwice(t.s, t.i, t.j);
    AddSub(t.i, 1);
    AddSub(t.j, Swap(t.s, t.i, t.j)[t.i]);
  }

  lemma SwapTwice(s: seq<uint8>, i: nat, j: nat)
    requires i < |s| && j < |s|
    ensures Swap(Swap(s, i, j), i, j) == s
  {}

  function Undos(t: Stream, n: nat): (r: Stream)
    requires |t.s| == 256
    ensures |r.s| == 256
    decreases n
  {
    if n == 0 then t else Undos(Undo(t), n - 1)
  }

  /** Any number of draws, the discarded ones included, can be taken back. */
  lemma {:induction false} UndoDraws(t: Stream, n: nat)
    requires |t.s| == 256
    ensures Undos(Draws(t, n), n) == t
  {
    if n > 0 {
      UndoNext(Draws(t, n - 1));
      UndoDraws(t, n - 1);
    }
  }

  /** So two different states never merge, however many bytes are drawn from both. */
  lemma DrawsInjective(t: Stream, u: Stream, n: nat)
    requires |t.s| == 256 && |u.s| == 256 && Draws(t, n) == Draws(u, n)
    ensures t == u
  {
    UndoDraws(t, n);
    UndoDraws(u, n);
  }

  // ---- Key scheduling ----

  // RC4's key schedule as published: j and the table after `n` of its 256 turns.
  function KeySchedule(key: seq<uint8>, n: nat): (r: (uint8, seq<uint8>))
    requires |key| > 0 && n <= 256
    ensures |r.1| == 256
  {
    if n == 0 then (0, Identity())
    else
      var (j0, s) := KeySchedule(key, n - 1);
      var j := (j0 as int + s[n - 1] + key[(n - 1) % |key|]) % 256;
      (j, s[n - 1 := s[j]][j := s[n - 1]])
  }

  /** Seeding a fresh state computes the published schedule's permutation (but leaves both
      indices at 255, so the keystream then starts from another place). */
  lemma SeedIsKeySchedule(key: seq<uint8>)
    requires |key| > 0
    ensures AddRandom(Fresh(), key).s == KeySchedule(key, 256).1
    ensures AddRandom(Fresh(), key).i == 255 && AddRandom(Fresh(), key).j == 255
  {
    hide Mixes, KeySchedule, Identity;
    MixesIsKeySchedule(key, 256);
  }

  lemma NextIndex(n: nat)
    requires 0 < n <= 256
    ensures Add8(if n == 1 then 255 else n - 2, 1) == n - 1
  {}

  lemma {:induction false} MixesIsKeySchedule(key: seq<uint8>, n: nat)
    requires |key| > 0 && n <= 256
    ensures var m := Mixes(Stream(255, 0, Identity()), key, n);
            m.i == (if n == 0 then 255 else n - 1) && (m.j, m.s) == KeySchedule(key, n)
  {
    hide Identity, Add8;
    if n > 0 {
      var m := Mixes(Stream(255, 0, Identity()), key, n - 1);
      MixesIsKeySchedule(key, n - 1);
      NextIndex(n);
      AddTwice(m.j, m.s[n - 1], key[(n - 1) % |key|]);
    }
  }

  lemma AddTwice(x: uint8, y: uint8, z: uint8)
    ensures Add8(Add8(x, y), z) == (x as int + y + z) % 256
  {}

  // The same turns from any index, j and table: turn `n` is at index `first` + n - 1.
  function Reschedule(first: uint8, j: uint8, s: seq<uint8>, key: seq<uint8>, n: nat): (r: (uint8, seq<uint8>))
    requires |s| == 256 && |key| > 0
    ensures |r.1| == 256
  {
    if n == 0 then (j, s)
    else
      var (j0, s0) := Reschedule(first, j, s, key, n - 1);
      var x := (first as int + n - 1) % 256;
      var j1 := (j0 as int + s0[x] + key[(n - 1) % |key|]) % 256;
      (j1, s0[x := s0[j1]][j1 := s0[x]])
  }

  /** Seeding any state goes on with the schedule from its indices and table, one turn for each entry,
      and leaves both indices one before the first. */
  lemma SeedIs(t: Stream, key: seq<uint8>)
    requires |t.s| == 256 && |key| > 0
    ensures var r := AddRandom(t, key);
            r.s == Reschedule(t.i, t.j, t.s, key, 256).1 && r.i == r.j == (t.i as int + 255) % 256
  {
    hide Mixes, Reschedule;
    MixesAre(t, key, 256);
  }

  lemma {:induction false} MixesAre(t: Stream, key: seq<uint8>, n: nat)
    requires |t.s| == 256 && |key| > 0 && n <= 256
    ensures var m := Mixes(Stream(Sub8(t.i, 1), t.j, t.s), key, n);
            m.i == (t.i as int + n + 255) % 256 && (m.j, m.s) == Reschedule(t.i, t.j, t.s, key, n)
  {
    hide Add8, Mix;
    if n > 0 {
      var m := Mixes(Stream(Sub8(t.i, 1), t.j, t.s), key, n - 1);
      MixesAre(t, key, n - 1);
      IndexAfter(t.i, n);
      MixIs(m, key[(n - 1) % |key|], (t.i as int + n - 1) % 256);
    }
  }

  lemma MixIs(m: Stream, k: uint8, x: uint8)
    requires |m.s| == 256 && Add8(m.i, 1) == x
    ensures var j := (m.j as int + m.s[x] + k) % 256; Mix(m, k) == Stream(x, j, m.s[x := m.s[j]][j := m.s[x]])
  {
    hide Add8;
    AddTwice(m.j, m.s[x], k);
  }

  lemma IndexAfter(i: uint8, n: nat)
    requires 0 < n <= 256
    ensures Add8((i as int + n - 1 + 255) % 256, 1) == (i as int + n - 1) % 256 == (i as int + n + 255) % 256
  {}
}
