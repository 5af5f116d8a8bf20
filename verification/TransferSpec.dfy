/** One connection of src/IMEI.hpp and src/MEISocket.cpp on values: the 64-bit send counter, the
    retransmit queue, and what an incoming packet does. */
module TransferSpec {
  import opened MachineTypes
  import opened PacketSpec

  // `NetworkAddress` as far as connections use it: compared for equality.
  datatype Address = Address(family: uint16, host: seq<uint8>, port: uint16)

  const CONTROL: uint16 := 0x40
  const CONNECT: uint16 := 0xf01
  const ACCEPT: uint16 := 0xf02

  predicate IsControl(flags: uint16) { flags / 0x40 % 2 == 1 }

  // `IPacketRef`: the whole buffer, how much of it is the packet, and the retry state.
  datatype Ref = Ref(data: seq<uint8>, pksz: nat, wait: uint32, attempt: uint32, number: uint64)

  datatype Xfer = Xfer(remote: Address, lsess: uint32, rsess: uint32, rt: seq<Ref>,
                       lseq: uint32, lseqh: uint32, rseq: uint32, rseqh: uint32)

  // ---- The send counter ----

  function Seq64(high: uint32, low: uint32): uint64 { high * TWO_TO_THE_32 + low }

  // `cseqlocal`, `cseqremote`.
  function LocalSeq(x: Xfer): uint64 { Seq64(x.lseqh, x.lseq) }
  function RemoteSeq(x: Xfer): uint64 { Seq64(x.rseqh, x.rseq) }

  // `seqlocal`: the low word, with a carry into the high word.
  function Advance(x: Xfer): Xfer {
    var low := (x.lseq + 1) % TWO_TO_THE_32;
    x.(lseq := low, lseqh := if low == 0 then (x.lseqh + 1) % TWO_TO_THE_32 else x.lseqh)
  }

  /** The two words count modulo 2^64. */
  lemma AdvanceCounts(x: Xfer)
    ensures LocalSeq(Advance(x)) == (LocalSeq(x) + 1) % TWO_TO_THE_64
  {}

  // ---- Timers ----

  function SendWait(ok: bool): uint32 { if ok then 500 else 100 }

  // `send(IPacketRef &)`; `ok` is what the socket reports.
  function Transmit(r: Ref, ok: bool): Ref {
    r.(attempt := (r.attempt + 1) % TWO_TO_THE_32, wait := SendWait(ok))
  }

  // Whether the entry is transmitted at a tick, and what becomes of it: nothing, when its
  // attempts are used up.
  predicate Due(r: Ref) { (r.wait - 1) % TWO_TO_THE_32 == 0 }
  predicate Resent(r: Ref) { Due(r) && r.attempt <= 5 }

  function TickRef(r: Ref, ok: bool): Option<Ref> {
    var w := (r.wait - 1) % TWO_TO_THE_32;
    if w != 0 then Some(r.(wait := w))
    else if r.attempt > 5 then None
    else Some(Transmit(r.(wait := 0), ok))
  }

  // One tick over the queue; `oks` holds the socket's answer for each entry.
  function Tick(rt: seq<Ref>, oks: seq<bool>): seq<Ref>
    requires |oks| == |rt|
  {
    if |rt| == 0 then []
    else
      var n := |rt| - 1;
      Tick(rt[..n], oks[..n]) + match TickRef(rt[n], oks[n]) { case None => [] case Some(r) => [r] }
  }

  predicate Sized(rt: seq<Ref>) { forall r :: r in rt ==> r.pksz <= |r.data| }

  // The packets a tick puts on the network, in order.
  function TickSends(rt: seq<Ref>): seq<seq<uint8>>
    requires Sized(rt)
  {
    if |rt| == 0 then []
    else
      var n := |rt| - 1;
      TickSends(rt[..n]) + if Resent(rt[n]) then [rt[n].data[..rt[n].pksz]] else []
  }

  /** A tick puts a packet on the network if and only if it is that of an entry whose wait ends and that
      has attempts left. */
  lemma {:induction false} TickSendsIff(rt: seq<Ref>)
    requires Sized(rt)
    ensures forall p :: p in TickSends(rt) <==>
              exists r :: r in rt && r.wait == 1 && r.attempt <= 5 && p == r.data[..r.pksz]
  {
    if |rt| > 0 {
      var n := |rt| - 1;
      TickSendsIff(rt[..n]);
      assert rt == rt[..n] + [rt[n]];
    }
  }

  // ---- Every queued entry, at any time ----

  predicate RefOk(r: Ref) {
    |r.data| == SIZE && 1 <= r.pksz <= SIZE && 1 <= r.wait <= 500 && 1 <= r.attempt <= 6
  }

  function Potential(r: Ref): int { r.wait + 500 * (6 - r.attempt) }

  /** A tick keeps the timer in range, so it never wraps below zero, and always comes closer to
      the end: an entry is transmitted at most six times. */
  lemma TickRefKeeps(r: Ref, ok: bool)
    requires RefOk(r)
    ensures TickRef(r, ok).None? <==> r.wait == 1 && r.attempt == 6
    ensures TickRef(r, ok).Some? ==>
              var r' := TickRef(r, ok).value;
              && RefOk(r') && Potential(r') < Potential(r)
              && (r'.data, r'.pksz, r'.number) == (r.data, r.pksz, r.number)
              && r'.attempt == r.attempt + if Resent(r) then 1 else 0
  {}

  // The state of an entry after `n` ticks from time `now`; `out(t)` is the socket's answer to a
  // transmission at tick `t`.
  function Life(r: Ref, out: nat -> bool, now: nat, n: nat): Option<Ref>
    decreases n
  {
    if n == 0 then Some(r)
    else match TickRef(r, out(now)) {
      case None => None
      case Some(r') => Life(r', out, now + 1, n - 1)
    }
  }

  // The waits still to come, added up.
  function Remaining(r: Ref, out: nat -> bool, now: nat): nat
    requires RefOk(r)
    decreases 6 - r.attempt
  {
    if r.attempt == 6 then r.wait
    else r.wait + Remaining(Transmit(r, out(now + r.wait - 1)), out, now + r.wait)
  }

  lemma {:induction false} RemainingBounds(r: Ref, out: nat -> bool, now: nat)
    requires RefOk(r)
    ensures r.wait + 100 * (6 - r.attempt) <= Remaining(r, out, now) <= r.wait + 500 * (6 - r.attempt)
    decreases 6 - r.attempt
  {
    if r.attempt < 6 {
      RemainingBounds(Transmit(r, out(now + r.wait - 1)), out, now + r.wait);
    }
  }

  lemma RemainingStep(r: Ref, out: nat -> bool, now: nat)
    requires RefOk(r)
    ensures match TickRef(r, out(now)) {
              case None => Remaining(r, out, now) == 1
              case Some(r') => RefOk(r') && Remaining(r, out, now) == 1 + Remaining(r', out, now + 1)
            }
  {
    TickRefKeeps(r, out(now));
    if r.wait > 1 {
      var r' := r.(wait := r.wait - 1);
      assert TickRef(r, out(now)) == Some(r');
      assert now + 1 + r'.wait == now + r.wait;
      if r.attempt < 6 {
        assert Transmit(r', out(now + r.wait - 1)) == Transmit(r, out(now + r.wait - 1));
      }
    } else if r.attempt < 6 {
      assert TickRef(r, out(now)) == Some(Transmit(r, out(now)));
    }
  }

  /** An entry that is not removed by a reply is still queued after `n` ticks exactly as long as
      the sum of its waits is not used up, and all six transmissions have been made then. */
  lemma {:induction false} LifeIs(r: Ref, out: nat -> bool, now: nat, n: nat)
    requires RefOk(r)
    ensures Life(r, out, now, n).Some? <==> n < Remaining(r, out, now)
    ensures n < Remaining(r, out, now) ==> RefOk(Life(r, out, now, n).value)
    ensures n == Remaining(r, out, now) - 1 ==> Life(r, out, now, n).value.attempt == 6
    decreases n
  {
    RemainingStep(r, out, now);
    TickRefKeeps(r, out(now));
    if n > 0 {
      match TickRef(r, out(now))
      case None =>
      case Some(r') => LifeIs(r', out, now + 1, n - 1);
    }
  }

  // The entry as `send(Packet &)` queues it.
  function Queued(data: seq<uint8>, pksz: nat, number: uint64, ok: bool): Ref {
    Transmit(Ref(data, pksz, 0, 0, number), ok)
  }

  /** From its first transmission on, a packet lives between 600 and 3000 ticks, whatever the
      socket reports. */
  lemma LifeOfPacket(data: seq<uint8>, pksz: nat, number: uint64, ok: bool, out: nat -> bool, n: nat)
    requires |data| == SIZE && 1 <= pksz <= SIZE
    ensures RefOk(Queued(data, pksz, number, ok)) && Queued(data, pksz, number, ok).attempt == 1
    ensures n < 600 ==> Life(Queued(data, pksz, number, ok), out, 0, n).Some?
    ensures n >= 3000 ==> Life(Queued(data, pksz, number, ok), out, 0, n).None?
  {
    var r := Queued(data, pksz, number, ok);
    LifeIs(r, out, 0, n);
    RemainingBounds(r, out, 0);
  }

  // ---- When a packet is sent ----

  // The ticks from the first transmission to the one after `k` others: 500 for each that the socket
  // accepted and 100 for each that it refused. `ok` is its answer to the first.
  function SentAt(ok: bool, out: nat -> bool, k: nat): nat {
    if k == 0 then 0
    else
      var before := SentAt(ok, out, k - 1);
      before + if (if before == 0 then ok else out(before - 1)) then 500 else 100
  }

  // How many of the first `k` transmissions the socket accepted.
  function Accepted(ok: bool, out: nat -> bool, k: nat): nat {
    if k == 0 then 0
    else
      var at := SentAt(ok, out, k - 1);
      Accepted(ok, out, k - 1) + if (if at == 0 then ok else out(at - 1)) then 1 else 0
  }

  lemma {:induction false} SentAtCounts(ok: bool, out: nat -> bool, k: nat)
    ensures Accepted(ok, out, k) <= k
    ensures SentAt(ok, out, k) == 500 * Accepted(ok, out, k) + 100 * (k - Accepted(ok, out, k))
  {
    if k > 0 {
      SentAtCounts(ok, out, k - 1);
    }
  }

  lemma {:induction false} LifeSnoc(r: Ref, out: nat -> bool, now: nat, n: nat)
    requires RefOk(r)
    ensures Life(r, out, now, n + 1)
         == match Life(r, out, now, n) { case None => None case Some(q) => TickRef(q, out(now + n)) }
    decreases n
  {
    hide RefOk;
    TickRefKeeps(r, out(now));
    if n > 0 {
      match TickRef(r, out(now))
      case None =>
      case Some(q) => LifeSnoc(q, out, now + 1, n - 1);
    }
  }

  // One tick between transmissions, and one at which it is sent again.
  lemma TickWaits(r: Ref, ok: bool)
    requires RefOk(r)
    ensures r.wait > 1 ==> TickRef(r, ok) == Some(r.(wait := r.wait - 1))
    ensures r.wait == 1 && r.attempt < 6 ==>
              TickRef(r, ok) == Some(r.(wait := if ok then 500 else 100, attempt := r.attempt + 1))
    ensures r.wait == 1 && r.attempt == 6 ==> TickRef(r, ok) == None
  {}

  /** The exact state of a queued packet at every tick: after its `k`th transmission in row it waits for
      the tick of the next. */
  lemma {:induction false} LifeAt(data: seq<uint8>, pksz: nat, number: uint64, ok: bool, out: nat -> bool,
                                  n: nat, k: nat)
    requires |data| == SIZE && 1 <= pksz <= SIZE && k < 6
    requires SentAt(ok, out, k) <= n < SentAt(ok, out, k + 1)
    ensures Life(Queued(data, pksz, number, ok), out, 0, n)
         == Some(Ref(data, pksz, SentAt(ok, out, k + 1) - n, k + 1, number))
    decreases n
  {
    hide TickRef, Life, SentAt;
    var r := Queued(data, pksz, number, ok);
    QueuedIs(data, pksz, number, ok, out);
    SentAtNext(ok, out, k);
    if n > 0 {
      LifeSnoc(r, out, 0, n - 1);
      if n > SentAt(ok, out, k) {
        LifeAt(data, pksz, number, ok, out, n - 1, k);
        TickWaits(Ref(data, pksz, SentAt(ok, out, k + 1) - (n - 1), k + 1, number), out(n - 1));
      } else {
        SentAtNext(ok, out, k - 1);
        LifeAt(data, pksz, number, ok, out, n - 1, k - 1);
        TickWaits(Ref(data, pksz, 1, k, number), out(n - 1));
      }
    } else {
      LifeNone(r, out);
    }
  }

  lemma LifeNone(r: Ref, out: nat -> bool)
    ensures Life(r, out, 0, 0) == Some(r)
  {}

  lemma QueuedIs(data: seq<uint8>, pksz: nat, number: uint64, ok: bool, out: nat -> bool)
    requires |data| == SIZE && 1 <= pksz <= SIZE
    ensures RefOk(Queued(data, pksz, number, ok)) && SentAt(ok, out, 0) == 0
    ensures Queued(data, pksz, number, ok) == Ref(data, pksz, SentAt(ok, out, 1), 1, number)
  {}

  lemma SentAtNext(ok: bool, out: nat -> bool, k: nat)
    ensures var before, after := SentAt(ok, out, k), SentAt(ok, out, k + 1);
            && (k == 0 <==> before == 0)
            && (k > 0 ==> after == before + if out(before - 1) then 500 else 100)
            && before + 100 <= after <= before + 500
  {}

  /** A packet that is never answered is queued for exactly the six waits, and is sent again at exactly
      the five ticks between them. */
  lemma LifeExactly(data: seq<uint8>, pksz: nat, number: uint64, ok: bool, out: nat -> bool, n: nat)
    requires |data| == SIZE && 1 <= pksz <= SIZE
    ensures var life := Life(Queued(data, pksz, number, ok), out, 0, n);
            && (life.Some? <==> n < SentAt(ok, out, 6))
            && (life.Some? ==> (Resent(life.value) <==> exists k :: 1 <= k <= 5 && n + 1 == SentAt(ok, out, k)))
  {
    hide TickRef, Life, SentAt;
    var r := Queued(data, pksz, number, ok);
    QueuedIs(data, pksz, number, ok, out);
    LifeIs(r, out, 0, n);
    var end := SentAt(ok, out, 6);
    SentAtNext(ok, out, 5);
    LifeIs(r, out, 0, end - 1);
    LifeIs(r, out, 0, end);
    LifeAt(data, pksz, number, ok, out, end - 1, 5);
    LifeSnoc(r, out, 0, end - 1);
    TickWaits(Ref(data, pksz, 1, 6, number), out(end - 1));
    if n < end {
      var k := Stage(ok, out, n);
      LifeAt(data, pksz, number, ok, out, n, k);
      ResentIs(Ref(data, pksz, SentAt(ok, out, k + 1) - n, k + 1, number));
      StageOnly(ok, out, n, k);
    }
  }

  lemma ResentIs(r: Ref)
    requires RefOk(r)
    ensures Resent(r) <==> r.wait == 1 && r.attempt < 6
  {}

  // Between which two transmissions a tick lies.
  lemma Stage(ok: bool, out: nat -> bool, n: nat) returns (k: nat)
    requires n < SentAt(ok, out, 6)
    ensures k < 6 && SentAt(ok, out, k) <= n < SentAt(ok, out, k + 1)
  {
    hide SentAt;
    SentAtNext(ok, out, 0);
    k := 0;
    while SentAt(ok, out, k + 1) <= n
      invariant k < 6 && SentAt(ok, out, k) <= n
      decreases 6 - k
    {
      k := k + 1;
    }
  }

  lemma StageOnly(ok: bool, out: nat -> bool, n: nat, k: nat)
    requires k < 6 && SentAt(ok, out, k) <= n < SentAt(ok, out, k + 1)
    ensures n + 1 == SentAt(ok, out, k + 1) && k < 5 <==> exists j :: 1 <= j <= 5 && n + 1 == SentAt(ok, out, j)
  {
    hide SentAt;
    if j :| 1 <= j <= 5 && n + 1 == SentAt(ok, out, j) {
      if j <= k {
        SentAtMonotone(ok, out, j, k);
      } else {
        SentAtMonotone(ok, out, k + 1, j);
        SentAtStrict(ok, out, k + 1, j);
      }
    }
  }

  lemma {:induction false} SentAtMonotone(ok: bool, out: nat -> bool, j: nat, k: nat)
    requires j <= k
    ensures SentAt(ok, out, j) <= SentAt(ok, out, k)
    decreases k
  {
    hide SentAt;
    if j < k {
      SentAtMonotone(ok, out, j, k - 1);
      SentAtNext(ok, out, k - 1);
    }
  }

  lemma SentAtStrict(ok: bool, out: nat -> bool, j: nat, k: nat)
    requires j <= k && SentAt(ok, out, j) == SentAt(ok, out, k)
    ensures j == k
  {
    hide SentAt;
    if j < k {
      SentAtNext(ok, out, j);
      SentAtMonotone(ok, out, j + 1, k);
    }
  }

  /** If the socket accepts every transmission the packet is queued for 3000 ticks and sent every 500th;
      if it refuses every one, for 600 ticks and every 100th. */
  lemma {:induction false} SteadySocket(ok: bool, out: nat -> bool, k: nat)
    requires forall t :: out(t) == ok
    ensures SentAt(ok, out, k) == if ok then 500 * k else 100 * k
  {
    if k > 0 {
      SteadySocket(ok, out, k - 1);
    }
  }

  lemma SteadyLife(data: seq<uint8>, pksz: nat, number: uint64, ok: bool, out: nat -> bool, n: nat)
    requires |data| == SIZE && 1 <= pksz <= SIZE && forall t :: out(t) == ok
    ensures Life(Queued(data, pksz, number, ok), out, 0, n).Some? <==> n < if ok then 3000 else 600
  {
    hide Life, SentAt;
    SteadySocket(ok, out, 6);
    LifeExactly(data, pksz, number, ok, out, n);
  }
}
