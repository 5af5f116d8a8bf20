/** `arc4random` of src/arc4random.cpp: seeding on demand, the byte budget between seedings,
    and the methods that work on the table in place. */
module Arc4Random {
  import opened MachineTypes
  import opened Arc4
  import opened Arc4Uniform

  // What the platform's entropy sources deliver at one attempt: the buffers mixed in; none when
  // every source failed.
  type Entropy = e: seq<seq<uint8>> | forall k :: 0 <= k < |e| ==> |e[k]| > 0

  const BYTES_BEFORE_RESEED: int := 1600000
  const DISCARDED: nat := 12 * 256

  datatype Gen = Gen(stream: Stream, initialized: bool, count: int, seeded: bool)

  function SeedAll(t: Stream, e: Entropy): (r: Stream)
    requires |t.s| == 256
    ensures |r.s| == 256
  {
    if |e| == 0 then t else AddRandom(SeedAll(t, e[..|e| - 1]), e[|e| - 1])
  }

  // `arc4_stir`.
  function StirGen(g: Gen, e: Entropy): (r: Gen)
    requires |g.stream.s| == 256
    ensures |r.stream.s| == 256
  {
    var t := SeedAll(if g.initialized then g.stream else Fresh(), e);
    if g.seeded || |e| > 0 then Gen(Draws(t, DISCARDED), true, BYTES_BEFORE_RESEED, true)
    else Gen(t, true, g.count, false)
  }

  /** What the sources deliver is mixed in in the order in which they are asked. */
  lemma {:induction false} SeedsInOrder(t: Stream, dat: seq<uint8>, e: Entropy)
    requires |t.s| == 256 && |dat| > 0
    ensures SeedAll(t, [dat] + e) == SeedAll(AddRandom(t, dat), e)
  {
    hide AddRandom;
    var all: Entropy := [dat] + e;
    if |e| == 0 {
      assert all[..0] == [] && all[0] == dat;
      assert SeedAll(t, all) == AddRandom(SeedAll(t, []), dat);
    } else {
      SeedsInOrder(t, dat, e[..|e| - 1]);
      assert all[..|all| - 1] == [dat] + e[..|e| - 1];
    }
  }

  predicate NeedsStir(g: Gen) { g.count - 4 <= 0 || !g.initialized }

  // The state from which `arc4random` draws its word, and the state it leaves.
  function Ready(g: Gen, e: Entropy): (r: Gen)
    requires |g.stream.s| == 256
    ensures |r.stream.s| == 256
  {
    var g1 := g.(count := g.count - 4);
    if NeedsStir(g) then StirGen(g1, e) else g1
  }

  function Call(g: Gen, e: Entropy): (r: Gen)
    requires |g.stream.s| == 256
    ensures |r.stream.s| == 256
  {
    var g1 := Ready(g, e);
    g1.(stream := Draws(g1.stream, 4))
  }

  // Four bytes drawn in order, the first on top.
  function WordDrawn(t: Stream): uint32
    requires |t.s| == 256
  {
    Drawn(t) * 0x100_0000 + Drawn(Draws(t, 1)) * 0x1_0000 + Drawn(Draws(t, 2)) * 0x100 + Drawn(Draws(t, 3))
  }

  // Four bytes read as a number, the first on top.
  predicate IsWordOf(w: uint32, b0: uint8, b1: uint8, b2: uint8, b3: uint8) {
    w / 0x100_0000 == b0 && w / 0x1_0000 % 0x100 == b1 && w / 0x100 % 0x100 == b2 && w % 0x100 == b3
  }

  /** A word is the next four bytes of RC4's published output loop, `skip` bytes into it. */
  lemma WordIs(t: Stream, skip: nat)
    requires |t.s| == 256
    ensures var b := OutputLoop(t.i, t.j, t.s, skip + 4);
            IsWordOf(WordDrawn(Draws(t, skip)), b[skip], b[skip + 1], b[skip + 2], b[skip + 3])
  {
    hide OutputLoop, Drawn, Draws;
    KeystreamIs(t, skip + 4);
    KeystreamAt(t, skip + 4, skip);
    KeystreamAt(t, skip + 4, skip + 1);
    KeystreamAt(t, skip + 4, skip + 2);
    KeystreamAt(t, skip + 4, skip + 3);
    DrawsAdd(t, skip, 1);
    DrawsAdd(t, skip, 2);
    DrawsAdd(t, skip, 3);
    BytesOf(Drawn(Draws(t, skip)), Drawn(Draws(t, skip + 1)), Drawn(Draws(t, skip + 2)), Drawn(Draws(t, skip + 3)));
  }

  lemma BytesOf(b0: uint8, b1: uint8, b2: uint8, b3: uint8)
    ensures IsWordOf(b0 * 0x100_0000 + b1 * 0x1_0000 + b2 * 0x100 + b3, b0, b1, b2, b3)
  {
    var w: int := b0 * 0x100_0000 + b1 * 0x1_0000 + b2 * 0x100 + b3;
    assert w / 0x1_0000 == b0 * 0x100 + b1 && w / 0x100 == b0 * 0x1_0000 + b1 * 0x100 + b2;
  }

  /** The first word of a generator that got no entropy. */
  lemma UnseededWord()
    ensures Word(Start(), []) == 0x0205_070d
  {
    hide Drawn;
    FirstBytes();
    KeystreamAt(Fresh(), 4, 0);
    KeystreamAt(Fresh(), 4, 1);
    KeystreamAt(Fresh(), 4, 2);
    KeystreamAt(Fresh(), 4, 3);
  }

  /** The first word after a stir that found entropy: bytes 3072 to 3075 of the output loop that starts
      from the seeded state. */
  lemma StirredWord(g: Gen, e: Entropy)
    requires |g.stream.s| == 256 && NeedsStir(g) && |e| > 0
    ensures var t := SeedAll(if g.initialized then g.stream else Fresh(), e);
            var b := OutputLoop(t.i, t.j, t.s, 3076);
            IsWordOf(Word(g, e), b[3072], b[3073], b[3074], b[3075])
  {
    hide OutputLoop, Draws, SeedAll, WordDrawn;
    WordIs(SeedAll(if g.initialized then g.stream else Fresh(), e), 3072);
  }

  /** A word that is not preceded by a stir: the next four bytes. */
  lemma PlainWord(g: Gen, e: Entropy)
    requires |g.stream.s| == 256 && !NeedsStir(g)
    ensures var b := OutputLoop(g.stream.i, g.stream.j, g.stream.s, 4); IsWordOf(Word(g, e), b[0], b[1], b[2], b[3])
  {
    hide OutputLoop, WordDrawn;
    WordIs(g.stream, 0);
  }

  function Word(g: Gen, e: Entropy): uint32
    requires |g.stream.s| == 256
  {
    WordDrawn(Ready(g, e).stream)
  }

  // One entropy attempt is at hand for every call; a call that does not stir leaves it unused.
  function Calls(g: Gen, es: seq<Entropy>): (r: Gen)
    requires |g.stream.s| == 256
    ensures |r.stream.s| == 256
  {
    if |es| == 0 then g else Call(Calls(g, es[..|es| - 1]), es[|es| - 1])
  }

  function Words(g: Gen, es: seq<Entropy>): (ws: seq<uint32>)
    requires |g.stream.s| == 256
    ensures |ws| == |es|
  {
    if |es| == 0 then []
    else Words(g, es[..|es| - 1]) + [Word(Calls(g, es[..|es| - 1]), es[|es| - 1])]
  }

  // How many of the calls stirred.
  function Stirs(g: Gen, es: seq<Entropy>): nat
    requires |g.stream.s| == 256
  {
    if |es| == 0 then 0
    else Stirs(g, es[..|es| - 1]) + if NeedsStir(Calls(g, es[..|es| - 1])) then 1 else 0
  }

  /** Counted from a call that stirred, the generator stirs again exactly before every 400000th
      further word, so 1600000 bytes are drawn per seeding; the budget left is always a positive
      multiple of four. */
  lemma {:induction false} Budget(g: Gen, es: seq<Entropy>)
    requires |g.stream.s| == 256 && g.initialized && g.seeded && g.count == BYTES_BEFORE_RESEED
    ensures var r := Calls(g, es);
            && r.initialized && r.seeded
            && r.count == BYTES_BEFORE_RESEED - 4 * (|es| % 400000)
            && 0 < r.count <= BYTES_BEFORE_RESEED && r.count % 4 == 0
            && (NeedsStir(r) <==> (|es| + 1) % 400000 == 0)
            && Stirs(g, es) == |es| / 400000
  {
    hide Call, NeedsStir;
    if |es| > 0 {
      Budget(g, es[..|es| - 1]);
      Cycle(|es| - 1);
      BudgetNeeds(Calls(g, es[..|es| - 1]));
      BudgetCall(Calls(g, es[..|es| - 1]), es[|es| - 1]);
    }
    Cycle(|es|);
    BudgetNeeds(Calls(g, es));
  }

  lemma BudgetNeeds(g: Gen)
    requires g.initialized
    ensures NeedsStir(g) <==> g.count <= 4
  {}

  // A call of a seeded generator: four bytes less, or a new budget.
  lemma BudgetCall(g: Gen, e: Entropy)
    requires |g.stream.s| == 256 && g.initialized && g.seeded
    ensures var r := Call(g, e);
            r.initialized && r.seeded && r.count == if g.count <= 4 then BYTES_BEFORE_RESEED else g.count - 4
  {
    hide Draws, SeedAll;
  }

  lemma Cycle(n: nat)
    ensures (n + 1) % 400000 == if n % 400000 == 399999 then 0 else n % 400000 + 1
    ensures (n + 1) / 400000 == if n % 400000 == 399999 then n / 400000 + 1 else n / 400000
  {}

  function Start(): Gen { Gen(Stream(0, 0, seq(256, _ => 0)), false, 0, false) }

  /** Until a source has delivered, every call tries to seed again; the counter falls by four
      each time, so it stays a 32-bit `int` for exactly the first 2^29 failing calls. */
  lemma {:induction false} FailingCalls(es: seq<Entropy>)
    requires forall k :: 0 <= k < |es| ==> es[k] == []
    ensures var r := Calls(Start(), es);
            && NeedsStir(r) && !r.seeded && r.count == -4 * |es| && Stirs(Start(), es) == |es|
            && (-0x8000_0000 <= r.count <==> |es| <= 0x2000_0000)
  {
    hide Draws, SeedAll;
    if |es| > 0 {
      FailingCalls(es[..|es| - 1]);
    }
  }

  /** The first call that gets entropy starts a full budget. */
  lemma FirstSeeding(es: seq<Entropy>, e: Entropy)
    requires forall k :: 0 <= k < |es| ==> es[k] == []
    requires |e| > 0
    ensures var r := Call(Calls(Start(), es), e);
            r.initialized && r.seeded && r.count == BYTES_BEFORE_RESEED
  {
    FailingCalls(es);
  }

  /** After any calls, whatever the sources delivered, the table is a permutation and the state
      is outside Finney's cycle. */
  lemma {:induction false} CallsKeepStream(es: seq<Entropy>)
    ensures var r := Calls(Start(), es);
            r.initialized ==> exists steps :: Runnable(steps) && r.stream == Run(Fresh(), steps)
    ensures |es| > 0 ==> Calls(Start(), es).initialized
    ensures |es| > 0 ==> IsPermutation(Calls(Start(), es).stream.s) && !Finney(Calls(Start(), es).stream)
  {
    if |es| > 0 {
      var es' := es[..|es| - 1];
      CallsKeepStream(es');
      var g := Calls(Start(), es');
      var steps: seq<Step> := [];
      if g.initialized {
        steps :| Runnable(steps) && g.stream == Run(Fresh(), steps);
      }
      var r, steps' := CallKeepsStream(g, es[|es| - 1], steps);
      RunInvariant(steps');
    }
  }

  lemma CallKeepsStream(g: Gen, e: Entropy, steps: seq<Step>) returns (r: Gen, steps': seq<Step>)
    requires |g.stream.s| == 256 && Runnable(steps)
    requires if g.initialized then g.stream == Run(Fresh(), steps) else steps == []
    ensures r == Call(g, e) && r.initialized && Runnable(steps') && r.stream == Run(Fresh(), steps')
  {
    hide Next, AddRandom;
    r := Call(g, e);
    var t := if g.initialized then g.stream else Fresh();
    steps' := steps;
    if NeedsStir(g) {
      steps' := SeedSteps(t, e, steps');
      if g.seeded || |e| > 0 {
        steps' := DrawSteps(SeedAll(t, e), DISCARDED, steps');
      }
    }
    steps' := DrawSteps(Ready(g, e).stream, 4, steps');
  }

  lemma {:induction false} SeedSteps(t: Stream, e: Entropy, steps: seq<Step>) returns (steps': seq<Step>)
    requires |t.s| == 256 && Runnable(steps) && t == Run(Fresh(), steps)
    ensures Runnable(steps') && SeedAll(t, e) == Run(Fresh(), steps')
    decreases |e|
  {
    hide AddRandom;
    if |e| == 0 {
      steps' := steps;
    } else {
      var before := SeedSteps(t, e[..|e| - 1], steps);
      steps' := before + [Seed(e[|e| - 1])];
      assert steps'[..|steps'| - 1] == before;
    }
  }

  lemma {:induction false} DrawSteps(t: Stream, n: nat, steps: seq<Step>) returns (steps': seq<Step>)
    requires |t.s| == 256 && Runnable(steps) && t == Run(Fresh(), steps)
    ensures Runnable(steps') && Draws(t, n) == Run(Fresh(), steps')
    decreases n
  {
    hide Next;
    if n == 0 {
      steps' := steps;
    } else {
      var before := DrawSteps(t, n - 1, steps);
      steps' := before + [Draw];
      assert steps'[..|steps'| - 1] == before;
    }
  }

  /** The static state of the source and its functions, working in place. */
  class Generator {
    var i: uint8
    var j: uint8
    const s: array<uint8>
    var initialized: bool
    var count: int
    var seeded: bool

    ghost predicate Valid() { s.Length == 256 }

    function TheStream(): (t: Stream)
      requires Valid()
      reads this, s
      ensures |t.s| == 256
    {
      Stream(i, j, s[..])
    }

    function Contents(): (g: Gen)
      requires Valid()
      reads this, s
      ensures |g.stream.s| == 256
    {
      Gen(TheStream(), initialized, count, seeded)
    }

    constructor ()
      ensures Valid() && Contents() == Start() && fresh(s)
    {
      s := new uint8[256](_ => 0);
      i, j, initialized, count, seeded := 0, 0, false, 0, false;
      new;
      assert s[..] == seq(256, _ => 0);
    }

    method Init()
      requires Valid()
      modifies this`i, this`j, s
      ensures TheStream() == Fresh()
    {
      var n := 0;
      while n < 256
        invariant 0 <= n <= 256
        invariant forall k :: 0 <= k < n ==> s[k] == k
      {
        s[n] := n;
        n := n + 1;
      }
      i, j := 0, 0;
      assert s[..] == Identity();
    }

    method MixIn(dat: seq<uint8>)
      requires Valid() && |dat| > 0
      modifies this`i, this`j, s
      ensures TheStream() == AddRandom(old(TheStream()), dat)
    {
      hide Add8, Sub8;
      i := Sub8(i, 1);
      ghost var t := TheStream();
      var n := 0;
      while n < 256
        invariant 0 <= n <= 256
        invariant TheStream() == Mixes(t, dat, n)
      {
        i := Add8(i, 1);
        var si := s[i];
        j := Add8(Add8(j, si), dat[n % |dat|]);
        s[i] := s[j];
        s[j] := si;
        n := n + 1;
      }
      j := i;
    }

    method GetByte() returns (b: uint8)
      requires Valid()
      modifies this`i, this`j, s
      ensures TheStream() == Next(old(TheStream())) && b == Drawn(old(TheStream()))
    {
      hide Add8;
      i := Add8(i, 1);
      var si := s[i];
      j := Add8(j, si);
      var sj := s[j];
      s[i] := sj;
      s[j] := si;
      b := s[Add8(si, sj)];
    }

    method GetWord() returns (val: uint32)
      requires Valid()
      modifies this`i, this`j, s
      ensures TheStream() == Draws(old(TheStream()), 4) && val == WordDrawn(old(TheStream()))
    {
      hide Next, Drawn;
      ghost var t := TheStream();
      var b0 := GetByte();
      assert TheStream() == Draws(t, 1);
      var b1 := GetByte();
      assert TheStream() == Draws(t, 2);
      var b2 := GetByte();
      assert TheStream() == Draws(t, 3);
      var b3 := GetByte();
      val := b0 as int * 0x100_0000 + b1 as int * 0x1_0000 + b2 as int * 0x100 + b3 as int;
    }

    method Stir(e: Entropy) returns (ok: bool)
      requires Valid()
      modifies this, s
      ensures Contents() == StirGen(old(Contents()), e)
      ensures ok <==> old(seeded) || |e| > 0
    {
      hide AddRandom, Next, Identity;
      if !initialized {
        Init();
        initialized := true;
      }
      ghost var t := TheStream();
      var n := 0;
      while n < |e|
        invariant 0 <= n <= |e|
        invariant TheStream() == SeedAll(t, e[..n])
        invariant initialized && count == old(count) && seeded == (old(seeded) || n > 0)
      {
        MixIn(e[n]);
        seeded := true;
        assert e[..n + 1][..n] == e[..n];
        n := n + 1;
      }
      assert e[..n] == e;
      if !seeded {
        return false;
      }
      t := TheStream();
      n := 0;
      while n < DISCARDED
        invariant 0 <= n <= DISCARDED
        invariant TheStream() == Draws(t, n)
        invariant initialized && seeded
      {
        var unused := GetByte();
        n := n + 1;
      }
      count := BYTES_BEFORE_RESEED;
      ok := true;
    }

    method StirIfNeeded(e: Entropy)
      requires Valid()
      modifies this, s
      ensures Contents()
           == if old(count) <= 0 || !old(initialized) then StirGen(old(Contents()), e) else old(Contents())
    {
      if count <= 0 || !initialized {
        var ok := Stir(e);
      }
    }

    method Random(e: Entropy) returns (val: uint32)
      requires Valid()
      modifies this, s
      ensures Contents() == Call(old(Contents()), e) && val == Word(old(Contents()), e)
    {
      hide StirGen, WordDrawn, Draws;
      count := count - 4;
      StirIfNeeded(e);
      val := GetWord();
    }

    // The source's two branches for 2^32 modulo the bound.
    static method Threshold(upper: uint32) returns (min: uint32)
      requires upper >= 2
      ensures min == Min(upper)
    {
      hide Low32, Not32;
      if upper > 0x8000_0000 {
        min := Low32(1 + Not32(upper));
      } else {
        min := Low32(Low32(0xffff_ffff - Low32(upper * 2)) + 1) % upper;
      }
    }

    /** The rejection loop, with the entropy at hand bounding its turns. */
    method Uniform(upper: uint32, es: seq<Entropy>) returns (r: Option<uint32>, ghost used: nat)
      requires Valid()
      modifies this, s
      ensures used <= |es| && Contents() == Calls(old(Contents()), es[..used])
      ensures upper < 2 ==> r == Some(0) && used == 0
      ensures upper >= 2 ==> r == Pick(upper, Words(old(Contents()), es))
      ensures upper >= 2 && r.Some? ==> 0 < used && r == Some(Words(old(Contents()), es)[used - 1] % upper)
    {
      hide Call, Word, Min;
      used := 0;
      if upper < 2 {
        return Some(0), 0;
      }
      ghost var g := Contents();
      var min := Threshold(upper);
      var k := 0;
      while k < |es|
        invariant 0 <= k <= |es| && used == k
        invariant Contents() == Calls(g, es[..k])
        invariant Pick(upper, Words(g, es)) == Pick(upper, Words(g, es)[k..])
      {
        WordAt(g, es, k);
        var w := Random(es[k]);
        assert es[..k + 1][..k] == es[..k];
        k, used := k + 1, used + 1;
        if w >= min {
          return Some(w % upper), used;
        }
      }
      return None, used;
    }
  }

  lemma {:induction false} WordAt(g: Gen, es: seq<Entropy>, k: nat)
    requires |g.stream.s| == 256 && k < |es|
    ensures Words(g, es)[k] == Word(Calls(g, es[..k]), es[k])
  {
    hide Word, Call;
    if k < |es| - 1 {
      WordAt(g, es[..|es| - 1], k);
      assert es[..|es| - 1][..k] == es[..k];
    }
  }
}
