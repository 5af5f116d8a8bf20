/** `IMEITransfer`: one connection as an object. Packet buffers move from the packet that was
    filled into the retransmit queue, which then is their only holder. */
module Transfer {
  import opened MachineTypes
  import Spec = PacketSpec
  import Frames
  import opened Packet
  import opened TransferSpec
  import opened TransferQueue

  // `IPacketRef`.
  datatype PacketRef = PacketRef(ptr: array<uint8>, pksz: nat, wait: uint32, attempt: uint32, number: uint64)

  function Pointers(rt: seq<PacketRef>): set<array<uint8>> { set r | r in rt :: r.ptr }

  function View(r: PacketRef): Ref
    reads r.ptr
  {
    Ref(r.ptr[..], r.pksz, r.wait, r.attempt, r.number)
  }

  lemma ViewIs(r: PacketRef)
    ensures View(r) == Ref(r.ptr[..], r.pksz, r.wait, r.attempt, r.number)
  {}

  function ViewAll(rt: seq<PacketRef>): (v: seq<Ref>)
    reads Pointers(rt)
    ensures |v| == |rt| && forall k :: 0 <= k < |rt| ==> v[k] == View(rt[k])
  {
    if |rt| == 0 then [] else ViewAll(rt[..|rt| - 1]) + [View(rt[|rt| - 1])]
  }

  lemma ViewAllSnoc(rt: seq<PacketRef>, r: PacketRef)
    ensures ViewAll(rt + [r]) == ViewAll(rt) + [View(r)]
  {
    assert (rt + [r])[..|rt|] == rt;
  }

  lemma ViewsFit(rt: seq<PacketRef>)
    requires forall r :: r in rt ==> r.pksz <= r.ptr.Length
    ensures Sized(ViewAll(rt))
  {}

  lemma NoTick()
    ensures ViewAll([]) == [] && Tick([], []) == [] && TickSends([]) == []
  {}

  // One more entry of a tick.
  lemma TickNext(views: seq<Ref>, oks: seq<bool>, i: nat)
    requires i < |views| == |oks| && Sized(views)
    ensures Tick(views[..i + 1], oks[..i + 1])
         == Tick(views[..i], oks[..i]) + match TickRef(views[i], oks[i]) { case None => [] case Some(r) => [r] }
    ensures TickSends(views[..i + 1])
         == TickSends(views[..i]) + if Resent(views[i]) then [views[i].data[..views[i].pksz]] else []
  {
    hide TickRef, Resent;
    assert views[..i + 1][..i] == views[..i] && oks[..i + 1][..i] == oks[..i];
  }

  ghost predicate Distinct(rt: seq<PacketRef>) {
    forall i, j :: 0 <= i < j < |rt| ==> rt[i].ptr != rt[j].ptr
  }

  class Transfer {
    var attached: bool  // `sys` is set
    var remote: Address
    var lsess: uint32
    var rsess: uint32
    var rt: seq<PacketRef>
    var lseq: uint32
    var lseqh: uint32
    var rseq: uint32
    var rseqh: uint32

    ghost function Held(): set<array<uint8>>
      reads this
    {
      Pointers(rt)
    }

    /** The queue holds pairwise distinct whole buffers, with something to send in each. */
    ghost predicate Valid()
      reads this, Held()
    {
      && Distinct(rt)
      && (rt != [] ==> attached)
      && forall r :: r in rt ==> r.ptr.Length == Spec.SIZE && 1 <= r.pksz <= Spec.SIZE
    }

    ghost function Contents(): Xfer
      reads this, Held()
    {
      Xfer(remote, lsess, rsess, ViewAll(rt), lseq, lseqh, rseq, rseqh)
    }

    // The two words the generator delivers for the counter; the other fields, which the source
    // leaves as they are, are zero here.
    constructor (low: uint32, high: uint32)
      ensures Valid() && !attached && rt == [] && lseq == low && lseqh == high
      ensures lsess == rsess == rseq == rseqh == 0
    {
      attached, rt, lseq, lseqh := false, [], low, high;
      remote := Address(0, [], 0);
      lsess, rsess, rseq, rseqh := 0, 0, 0, 0;
    }

    method SeqLocal() returns (r: uint64)
      requires Valid()
      modifies this`lseq, this`lseqh
      ensures Valid() && r == LocalSeq(old(Contents())) && Contents() == Advance(old(Contents()))
    {
      r := Seq64(lseqh, lseq);
      lseq := (lseq + 1) % TWO_TO_THE_32;
      if lseq == 0 {
        lseqh := (lseqh + 1) % TWO_TO_THE_32;
      }
    }

    // `send(IPacketRef &)`: hand the packet to the socket, whose answer is `ok`.
    method SendRef(r: PacketRef, ok: bool) returns (r': PacketRef, code: int, packet: Option<seq<uint8>>)
      requires r.pksz <= r.ptr.Length
      ensures !attached || r.pksz == 0 ==> r' == r && code == -1 && packet == None
      ensures attached && r.pksz != 0 ==>
                && View(r') == Transmit(View(r), ok) && r'.ptr == r.ptr && r'.pksz == r.pksz
                && code == (if ok then 0 else -1) && packet == Some(r.ptr[..r.pksz])
    {
      if !attached {
        return r, -1, None;
      }
      if r.pksz == 0 {
        return r, -1, None;
      }
      r' := r.(attempt := (r.attempt + 1) % TWO_TO_THE_32, wait := 500);
      packet := Some(r.ptr[..r.pksz]);
      if !ok {
        r' := r'.(wait := 100);
        return r', -1, packet;
      }
      return r', 0, packet;
    }

    // Queue a buffer under the next number and transmit it.
    method Push(buffer: array<uint8>, pksz: nat, ok: bool) returns (packet: Option<seq<uint8>>)
      requires Valid() && attached && buffer !in Held() && buffer.Length == Spec.SIZE && 1 <= pksz <= Spec.SIZE
      modifies this`rt, this`lseq, this`lseqh
      ensures Valid() && Held() == old(Held()) + {buffer} && packet == Some(buffer[..pksz])
      ensures Contents() == Advance(old(Contents())).(
                rt := old(Contents()).rt + [Queued(buffer[..], pksz, LocalSeq(old(Contents())), ok)])
    {
      hide ViewAll, View, Transmit;
      ghost var views := ViewAll(rt);
      var n := SeqLocal();
      var ipr := PacketRef(buffer, pksz, 0, 0, n);
      var sent, answer, bytes := SendRef(ipr, ok);
      ViewIs(ipr);
      ViewAllSnoc(rt, sent);
      assert ViewAll(rt) == views;
      rt := rt + [sent];
      packet := bytes;
    }

    /** `send(Packet &)`: the packet gives its buffer away. */
    method Send(p: Packet, ok: bool) returns (code: int, packet: Option<seq<uint8>>)
      requires Valid() && p.Valid()
      requires p.ptr != null ==> p.ptr !in Held() && Spec.Closable(p.Contents())
      modifies this`rt, this`lseq, this`lseqh, p, p.ptr
      ensures Valid() && p.Valid()
      ensures !attached || old(p.ptr) == null ==> code == -1 && packet == None && unchanged(this) && unchanged(p)
      ensures attached && old(p.ptr) != null ==>
                var b := Spec.Complete(old(p.Contents()));
                && Contents() == Enqueue(old(Contents()), old(p.Contents()), ok)
                && (b.pksz < 1 ==> code == -1 && packet == None && p.ptr == old(p.ptr))
                && (b.pksz >= 1 ==> code == 0 && packet == Some(b.data[..b.pksz]) && p.ptr == null
                                    && Held() == old(Held()) + {old(p.ptr)})
    {
      hide Spec.Complete, ViewAll;
      packet := None;
      if !attached || p.ptr == null {
        return -1, None;
      }
      p.Complete();
      assert Contents() == old(Contents()) by { SameBuffers(rt); }
      if p.pksz < 1 || p.pksz > Spec.SIZE {
        return -1, None;
      }
      var buffer, pksz := p.ptr, p.pksz;
      p.pksz, p.ptr := 0, null;
      packet := Push(buffer, pksz, ok);
      code := 0;
    }

    /** `connect`: build the session request and send it. */
    method Connect(ok: bool) returns (packet: Option<seq<uint8>>)
      requires Valid() && attached
      modifies this`rt, this`lseq, this`lseqh
      ensures Valid() && fresh(Held() - old(Held()))
      ensures Contents() == Enqueue(old(Contents()), (ConnectBytes(old(Contents())); ConnectBuf(old(Contents()))), ok)
      ensures packet == Some(Frames.Frame(ConnectMessage(old(lsess), LocalSeq(old(Contents())))))
    {
      hide Spec.InsertHeader, Spec.Insert, Spec.Complete, ViewAll, Frames.Frame;
      ghost var x := Contents();
      ConnectBytes(x);
      ConnectFits(x);
      var cnpck := new Packet();
      cnpck.Reset();
      cnpck.InsertHeader(Spec.Header(0, CONTROL, CONNECT, lsess, lseq));
      cnpck.Insert(Spec.Le32(lseqh));
      assert Contents() == x by { SameBuffers(rt); }
      var code;
      code, packet := Send(cnpck, ok);
    }

    // One turn of the loop of `HandleInterval`: the entry at `k` is erased, or stays.
    method TickEntry(k: nat, ok: bool) returns (erased: bool, packet: Option<seq<uint8>>)
      requires Valid() && k < |rt|
      modifies this`rt
      ensures Valid() && Held() <= old(Held())
      ensures var v := View(old(rt)[k]); packet == if Resent(v) then Some(v.data[..v.pksz]) else None
      ensures erased <==> TickRef(View(old(rt)[k]), ok).None?
      ensures erased ==> rt == old(rt)[..k] + old(rt)[k + 1..]
      ensures !erased ==> |rt| == |old(rt)| && rt == old(rt)[k := rt[k]] && rt[k].ptr == old(rt)[k].ptr
                          && rt[k].pksz == old(rt)[k].pksz && View(rt[k]) == TickRef(View(old(rt)[k]), ok).value
    {
      erased, packet := false, None;
      var r := rt[k].(wait := (rt[k].wait - 1) % TWO_TO_THE_32);
      if r.wait == 0 {
        if r.attempt > 5 {
          rt := rt[..k] + rt[k + 1..];
          return true, None;
        }
        var code;
        r, code, packet := SendRef(r, ok);
      }
      rt := rt[k := r];
    }

    /** `HandleInterval`: one tick; `answers(i)` is the socket's answer for entry `i`. */
    method HandleInterval(answers: nat -> bool) returns (packets: seq<seq<uint8>>)
      requires Valid()
      modifies this`rt
      ensures Valid() && Held() <= old(Held())
      ensures Contents() == old(Contents()).(rt := Tick(old(Contents()).rt, seq(|old(rt)|, (i: nat) => answers(i))))
      ensures packets == TickSends(old(Contents()).rt)
    {
      hide TickRef, Resent, View, ViewAll, Tick, TickSends, Distinct;
      packets := [];
      ghost var all, views := rt, ViewAll(rt);
      ViewsFit(rt);
      NoTick();
      ghost var oks := seq(|rt|, (i: nat) => answers(i));
      var i, k := 0, 0;
      while k < |rt|
        invariant k <= i <= |all| && k <= |rt| && rt[k..] == all[i..]
        invariant Valid() && Held() <= Pointers(all)
        invariant ViewAll(rt[..k]) == Tick(views[..i], oks[..i])
        invariant packets == TickSends(views[..i])
        decreases |all| - i
      {
        ghost var was, done := rt, rt[..k];
        Turn(all, rt, i, k);
        TickNext(views, oks, i);
        ghost var ticked := Tick(views[..i], oks[..i]);
        var erased, packet := TickEntry(k, answers(i));
        assert ViewAll(done) == ticked;
        if packet.Some? {
          packets := packets + [packet.value];
        }
        if !erased {
          Kept(was, rt, k);
          ViewAllSnoc(done, rt[k]);
          k := k + 1;
        } else {
          Erased(was, k);
        }
        i := i + 1;
      }
      assert rt[..k] == rt && views[..i] == views && oks[..i] == oks;
    }

    // The loop of `HandleRecv` over the queue, after the answer to a session request.
    method EraseConnects()
      requires Valid()
      modifies this`rt
      ensures Valid() && Held() <= old(Held())
      ensures Buffers(old(Contents()).rt)
      ensures Contents() == old(Contents()).(rt := WithoutConnects(old(Contents()).rt))
    {
      hide IsConnect, View, ViewAll, WithoutConnects, Distinct;
      ghost var all, views := rt, ViewAll(rt);
      ViewsWhole(rt);
      NoTick();
      NextWithoutConnects(views, 0);
      var i, k := 0, 0;
      while k < |rt|
        invariant k <= i <= |all| && k <= |rt| && rt[k..] == all[i..]
        invariant Valid() && Held() <= Pointers(all)
        invariant ViewAll(rt[..k]) == WithoutConnects(views[..i])
        decreases |all| - i
      {
        ghost var done, kept := rt[..k], WithoutConnects(views[..i]);
        Turn(all, rt, i, k);
        NextWithoutConnects(views, i);
        ConnectTest(rt[k]);
        var w := Spec.FromLe32(rt[k].ptr[..4]);
        if w - w % 0x2000 == 0xf010_0000 + 0x40 * 0x2000 {
          Shorter(rt, k);
          Erased(rt, k);
          rt := rt[..k] + rt[k + 1..];
        } else {
          Kept(rt, rt, k);
          ViewAllSnoc(done, rt[k]);
          k := k + 1;
        }
        assert ViewAll(rt[..k]) == WithoutConnects(views[..i + 1]);
        i := i + 1;
      }
      assert rt[..k] == rt && views[..i] == views;
    }

    /** `HandleRecv`: `reply` is the packet it transmits, if any. */
    method HandleRecv(pem: Packet) returns (reply: Option<seq<uint8>>)
      requires Valid() && attached && pem.Valid()
      modifies this`rt, this`rsess, this`rseq, this`rseqh, pem`mark
      ensures Valid() && Held() <= old(Held()) && pem.Valid()
      ensures Buffers(old(Contents()).rt)
      ensures (Contents(), reply) == Handle(old(Contents()), old(ParsePacket(pem)))
    {
      hide Spec.FetchHeader, Spec.Fetch32, IsControl, Buffers, WithoutConnects, AcceptBuf, ViewAll, View, Distinct;
      reply := None;
      ViewsWhole(rt);
      ghost var x := Contents();
      var mh := pem.FetchHeader();
      if IsControl(mh.flags) {
        if mh.code == CONNECT {
          rseq := mh.sequence;
          rseqh := pem.Fetch32();
          assert Contents() == x.(rseq := rseq, rseqh := rseqh);
          reply := Reply(mh);
        } else if mh.code == ACCEPT {
          rseq := mh.sequence;
          rsess := pem.Fetch32();
          rseqh := pem.Fetch32();
          assert Contents() == x.(rseq := rseq, rsess := rsess, rseqh := rseqh);
          EraseConnects();
        }
      }
    }

    // The answer to a session request, built and transmitted.
    method Reply(h: Spec.Header) returns (reply: Option<seq<uint8>>)
      requires Valid() && attached
      ensures var b := AcceptBuf(Contents(), h); reply == Some(b.data[..b.pksz])
    {
      hide Spec.InsertHeader, Spec.Insert, Spec.Complete, ViewAll, View, Distinct;
      ReplyFits(Contents(), h);
      ghost var x := Contents();
      var per := new Packet();
      per.Reset();
      per.InsertHeader(h.(code := ACCEPT, flags := CONTROL, sequence := lseq, session := rsess));
      per.Insert(Spec.Le32(lsess));
      per.Insert(Spec.Le32(lseqh));
      per.Complete();
      var ipr := PacketRef(per.ptr, per.pksz, 0, 0, Seq64(lseqh, lseq));
      var sent, code;
      sent, code, reply := SendRef(ipr, true);
    }
  }

  // A loop that erases from `s`, which was `all`: it stands at `k`, with `i` entries behind it.
  lemma Turn<T>(all: seq<T>, s: seq<T>, i: nat, k: nat)
    requires k < |s| && i <= |all| && s[k..] == all[i..]
    ensures i < |all| && s[k] == all[i] && s[k + 1..] == all[i + 1..]
  {
    assert |s[k..]| == |all[i..]|;
    assert s[k..][0] == all[i..][0];
    assert s[k..][1..] == s[k + 1..] && all[i..][1..] == all[i + 1..];
  }

  lemma Kept<T>(s: seq<T>, r: seq<T>, k: nat)
    requires k < |s| == |r| && r == s[k := r[k]]
    ensures r[..k] == s[..k] && r[k + 1..] == s[k + 1..] && r[..k + 1] == s[..k] + [r[k]]
  {}

  lemma Erased<T>(s: seq<T>, k: nat)
    requires k < |s|
    ensures var r := s[..k] + s[k + 1..]; r[..k] == s[..k] && r[k..] == s[k + 1..]
  {}

  lemma ReplyFits(x: Xfer, h: Spec.Header)
    ensures Spec.Closable(Spec.Reset())
    ensures var reply := Spec.Header(h.length, CONTROL, ACCEPT, x.rsess, x.lseq);
            && Spec.Fits(Spec.InsertHeader(Spec.Reset(), reply))
            && Spec.Closable(Spec.Insert(Spec.Insert(Spec.InsertHeader(Spec.Reset(), reply), Spec.Le32(x.lsess)),
                                         Spec.Le32(x.lseqh)))
    ensures 1 <= AcceptBuf(x, h).pksz <= Spec.SIZE && |AcceptBuf(x, h).data| == Spec.SIZE
  {}

  // What the handlers see of a packet; a packet without a buffer reads as zeros.
  function ParsePacket(p: Packet): Incoming
    requires p.Valid()
    reads p, p.ptr
  {
    if p.ptr == null then Incoming(Spec.NO_HEADER, 0, 0) else Parse(p.Contents())
  }

  lemma ViewsWhole(rt: seq<PacketRef>)
    requires forall r :: r in rt ==> r.ptr.Length == Spec.SIZE
    ensures Buffers(ViewAll(rt))
  {}

  lemma NextWithoutConnects(views: seq<Ref>, i: nat)
    requires Buffers(views) && i <= |views|
    ensures views[..0] == [] && WithoutConnects([]) == []
    ensures i < |views| ==>
              WithoutConnects(views[..i + 1]) ==
              WithoutConnects(views[..i]) + if IsConnect(views[i]) then [] else [views[i]]
  {
    hide IsConnect;
    if i < |views| {
      assert views[..i + 1][..i] == views[..i];
    }
  }

  lemma ConnectTest(r: PacketRef)
    requires r.ptr.Length == Spec.SIZE
    ensures var w := Spec.FromLe32(r.ptr[..4]);
            IsConnect(View(r)) <==> w - w % 0x2000 == 0xf010_0000 + 0x40 * 0x2000
  {
    hide Spec.FromLe32;
    assert r.ptr[..][..4] == r.ptr[..4];
  }

  lemma Shorter(rt: seq<PacketRef>, k: nat)
    requires k < |rt| && Distinct(rt)
    ensures Distinct(rt[..k] + rt[k + 1..])
  {}

  twostate lemma SameBuffers(rt: seq<PacketRef>)
    requires forall r :: r in rt ==> old(r.ptr[..]) == r.ptr[..]
    ensures ViewAll(rt) == old(ViewAll(rt))
  {}
}
