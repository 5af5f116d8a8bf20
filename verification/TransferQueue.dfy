/** What a connection does with outgoing and incoming packets (src/MEISocket.cpp), on values, and
    the order its retransmit queue always has. */
module TransferQueue {
  import opened MachineTypes
  import opened PacketSpec
  import opened Frames
  import opened TransferSpec

  // ---- Sending ----

  // `send(Packet &)` once the connection belongs to a system: the packet is completed, queued
  // under the next number and transmitted; an empty one is refused.
  function Enqueue(x: Xfer, b: Buf, ok: bool): Xfer
    requires Closable(b)
  {
    var c := Complete(b);
    if c.pksz < 1 then x
    else Advance(x).(rt := x.rt + [Queued(c.data, c.pksz, LocalSeq(x), ok)])
  }

  function ConnectHeader(x: Xfer): Header { Header(0, CONTROL, CONNECT, x.lsess, x.lseq) }

  // The packet `connect` builds.
  function ConnectBuf(x: Xfer): Buf {
    Insert(InsertHeader(Reset(), ConnectHeader(x)), Le32(x.lseqh))
  }

  // ---- Receiving ----

  // An incoming packet as its handlers look at it: the header and the two words behind it.
  datatype Incoming = Incoming(h: Header, first: uint32, second: uint32)

  // The bytes the socket delivered, in a cleared buffer.
  function Received(bytes: seq<uint8>): (b: Buf)
    requires |bytes| <= SIZE
    ensures Fits(b)
  {
    Buf(|bytes|, 0, 0, bytes + Zeros(SIZE - |bytes|))
  }

  function Parse(b: Buf): Incoming
    requires Fits(b)
  {
    var (b1, h) := FetchHeader(b);
    var (b2, first) := Fetch32(b1);
    var (b3, second) := Fetch32(b2);
    Incoming(h, first, second)
  }

  // The test on the first word of a queued packet.
  predicate IsConnect(r: Ref)
    requires |r.data| == SIZE
  {
    var w := FromLe32(r.data[..4]);
    w - w % 0x2000 == 0xf010_0000 + 0x40 * 0x2000
  }

  lemma IsConnectMeans(r: Ref)
    requires |r.data| == SIZE
    ensures IsConnect(r) <==> CodeOf(FromLe32(r.data[..4])) == CONNECT && FlagsOf(FromLe32(r.data[..4])) == CONTROL
  {
    var w := FromLe32(r.data[..4]);
    var v := w / 0x2000;
    assert w == 0x2000 * v + w % 0x2000;
    assert w / 0x10_0000 == v / 0x80;
  }

  predicate Buffers(rt: seq<Ref>) { forall r :: r in rt ==> |r.data| == SIZE }

  function WithoutConnects(rt: seq<Ref>): (short: seq<Ref>)
    requires Buffers(rt)
    ensures Buffers(short)
  {
    if |rt| == 0 then []
    else
      var n := |rt| - 1;
      WithoutConnects(rt[..n]) + if IsConnect(rt[n]) then [] else [rt[n]]
  }

  // The answer to a session request, as the writer builds it.
  function AcceptBuf(x: Xfer, h: Header): Buf {
    var reply := Header(h.length, CONTROL, ACCEPT, x.rsess, x.lseq);
    var b := Insert(Insert(InsertHeader(Reset(), reply), Le32(x.lsess)), Le32(x.lseqh));
    Complete(b)
  }

  // `HandleRecv`: the connection afterwards, and the bytes of a reply if there is one.
  function Handle(x: Xfer, inc: Incoming): (r: (Xfer, Option<seq<uint8>>))
    requires Buffers(x.rt)
    ensures Buffers(r.0.rt)
  {
    if IsControl(inc.h.flags) && inc.h.code == CONNECT then
      var x' := x.(rseq := inc.h.sequence, rseqh := inc.first);
      var b := AcceptBuf(x', inc.h);
      (x', Some(b.data[..b.pksz]))
    else if IsControl(inc.h.flags) && inc.h.code == ACCEPT then
      (x.(rseq := inc.h.sequence, rsess := inc.first, rseqh := inc.second, rt := WithoutConnects(x.rt)), None)
    else (x, None)
  }

  // ---- The two packets of the handshake, as bytes and as fields ----

  function ConnectMessage(lsess: uint32, number: uint64): Message {
    Message(Header(0, CONTROL, CONNECT, lsess, number % TWO_TO_THE_32), Le32(number / TWO_TO_THE_32))
  }

  function AcceptMessage(session: uint32, lsess: uint32, number: uint64): Message {
    Message(Header(0, CONTROL, ACCEPT, session, number % TWO_TO_THE_32), Le32(lsess) + Le32(number / TWO_TO_THE_32))
  }

  lemma Seq64Parts(x: Xfer)
    ensures LocalSeq(x) % TWO_TO_THE_32 == x.lseq && LocalSeq(x) / TWO_TO_THE_32 == x.lseqh
  {}

  lemma LengthIsReplaced(m: Message, length: uint32)
    ensures Frame(Message(m.h.(length := length), m.payload)) == Frame(m)
  {}

  // What the writer leaves after a header, some values and `complete`.
  lemma OneFrame(h: Header, v: seq<uint8>)
    requires |v| <= 8
    ensures var b := Insert(InsertHeader(Reset(), h), v);
            && WriterInv(b) && Complete(b).pksz == |Frame(Message(h, v))|
            && Complete(b).data[..Complete(b).pksz] == Frame(Message(h, v))
  {
    hide Insert, InsertHeader, Complete, Frame, OpenBytes, Reset, Block, Represents;
    var m := Message(h, v);
    ResetRepresents();
    WriterClosable(Reset());
    OneBlockWritten(h, v);
    OneBlockCompleted(Insert(InsertHeader(Reset(), h), v), OpenBytes(m));
    FrameIsBlock(m);
  }

  lemma OneBlockWritten(h: Header, v: seq<uint8>)
    requires |v| <= 8
    ensures var b := Insert(InsertHeader(Reset(), h), v);
            WriterInv(b) && Represents(b, Doc([], OpenBytes(Message(h, v)))) && |OpenBytes(Message(h, v))| >= 1
  {
    hide Insert, InsertHeader, HeaderBytes, Reset, Represents;
    ResetRepresents();
    HeaderRepresents(Reset(), Doc([], []), h);
    WriteKeeps(Reset(), PutHeader(h));
    WriteFits(h, v);
    var b1 := InsertHeader(Reset(), h);
    InsertRepresents(b1, Doc([], HeaderBytes(h)), v);
    WriteKeeps(b1, PutValue(v));
  }

  lemma ResetRepresents()
    ensures WriterInv(Reset()) && Represents(Reset(), Doc([], []))
  {
    var none: seq<WriteOp> := [];
    WritesRepresent(none);
  }

  // A header and two words are accepted by an empty packet.
  lemma WriteFits(h: Header, v: seq<uint8>)
    requires |v| <= 8
    ensures DocWrite(Doc([], []), PutHeader(h)) == Doc([], HeaderBytes(h))
    ensures DocWrite(Doc([], HeaderBytes(h)), PutValue(v)) == Doc([], HeaderBytes(h) + v)
  {
    hide HeaderBytes;
    WireNone();
  }

  lemma OneBlockCompleted(b: Buf, o: seq<uint8>)
    requires WriterInv(b) && Represents(b, Doc([], o)) && |o| >= 1
    ensures Closable(b) && Complete(b).pksz == |Block(o)| <= |Complete(b).data|
    ensures Complete(b).data[..Complete(b).pksz] == Block(o)
  {
    hide Block, Complete, Zeros;
    WireNone();
    WriterClosable(b);
    assert [] + o == o;
    CompleteBytes(b, [], o);
    assert [] + Block(o) + [] == Block(o);
  }

  lemma InsertTwice(b: Buf, v: seq<uint8>, w: seq<uint8>)
    requires Fits(b) && b.mark <= b.pksz && b.mark + |v| + |w| <= LIMIT
    ensures Insert(Insert(b, v), w) == Insert(b, v + w)
  {
    var p, at := b.data, b.mark;
    assert Put(Put(p, at, v), at + |v|, w) == Put(p, at, v + w);
  }

  /** `connect` sends the request that carries the session id and the whole 64-bit number. */
  lemma ConnectBytes(x: Xfer)
    ensures var b := ConnectBuf(x);
            && WriterInv(b) && Closable(b) && |Complete(b).data| == SIZE
            && Complete(b).data[..Complete(b).pksz] == Frame(ConnectMessage(x.lsess, LocalSeq(x)))
            && Complete(b).pksz == 20
  {
    hide Insert, InsertHeader, Complete, Frame, HeaderBytes, Reset;
    OneFrame(ConnectHeader(x), Le32(x.lseqh));
    Seq64Parts(x);
    WriterClosable(ConnectBuf(x));
  }

  /** The two packets in full, for ids 11223344 and 55667788 and number 99aabbcc ddeeff01, all in
      hexadecimal. */
  lemma PacketsInFull()
    ensures Frame(ConnectMessage(0x1122_3344, 0x99aa_bbcc_ddee_ff01))
         == [0x04, 0x00, 0x18, 0xf0] + [0x44, 0x33, 0x22, 0x11] + [0x01, 0xff, 0xee, 0xdd]
            + [0xcc, 0xbb, 0xaa, 0x99] + [0xea, 0x59, 0x88, 0xff]
    ensures Frame(AcceptMessage(0x1122_3344, 0x5566_7788, 0x99aa_bbcc_ddee_ff01))
         == [0x08, 0x00, 0x28, 0xf0] + [0x44, 0x33, 0x22, 0x11] + [0x01, 0xff, 0xee, 0xdd]
            + [0x88, 0x77, 0x66, 0x55] + [0xcc, 0xbb, 0xaa, 0x99] + [0xea, 0x59, 0x88, 0xff]
  {
    hide Le32, Zeros;
    WordsInFull();
    FlagsInFull();
  }

  /** A message of one byte, with its padding. */
  lemma PaddingInFull()
    ensures Frame(Message(Header(0, 0, 0x123, 0, 0), [0xab]))
         == [0x01, 0x00, 0x30, 0x12] + [0, 0, 0, 0] + [0, 0, 0, 0] + [0xab, 0, 0, 0] + [0xea, 0x59, 0x88, 0xff]
  {
    hide Le32;
    assert PFlags(0x123, 0, 1) == 0x1230_0001;
    SmallWords();
  }

  lemma SmallWords()
    ensures Le32(0x1230_0001) == [0x01, 0x00, 0x30, 0x12] && Le32(0) == [0, 0, 0, 0]
    ensures Le32(TRAILER) == [0xea, 0x59, 0x88, 0xff]
  {}

  lemma WordsInFull()
    ensures Le32(0xf018_0004) == [0x04, 0x00, 0x18, 0xf0] && Le32(0xf028_0008) == [0x08, 0x00, 0x28, 0xf0]
    ensures Le32(0x1122_3344) == [0x44, 0x33, 0x22, 0x11] && Le32(0x5566_7788) == [0x88, 0x77, 0x66, 0x55]
    ensures Le32(0xddee_ff01) == [0x01, 0xff, 0xee, 0xdd] && Le32(0x99aa_bbcc) == [0xcc, 0xbb, 0xaa, 0x99]
    ensures Le32(TRAILER) == [0xea, 0x59, 0x88, 0xff]
  {}

  lemma FlagsInFull()
    ensures PFlags(CONNECT, CONTROL, 4) == 0xf018_0004 && PFlags(ACCEPT, CONTROL, 8) == 0xf028_0008
  {}

  lemma ConnectFits(x: Xfer)
    ensures Closable(Reset()) && Fits(InsertHeader(Reset(), ConnectHeader(x)))
  {}

  /** The answer carries both session ids and the answering side's number. */
  lemma AcceptBytes(x: Xfer, h: Header)
    ensures var b := AcceptBuf(x, h);
            b.data[..b.pksz] == Frame(AcceptMessage(x.rsess, x.lsess, LocalSeq(x)))
  {
    hide Insert, InsertHeader, Complete, Frame, HeaderBytes;
    var reply := Header(h.length, CONTROL, ACCEPT, x.rsess, x.lseq);
    var b := InsertHeader(Reset(), reply);
    HeaderPlaced(reply);
    InsertTwice(b, Le32(x.lsess), Le32(x.lseqh));
    OneFrame(reply, Le32(x.lsess) + Le32(x.lseqh));
    Seq64Parts(x);
    LengthIsReplaced(Message(reply, Le32(x.lsess) + Le32(x.lseqh)), 0);
  }

  lemma HeaderPlaced(h: Header)
    ensures Fits(InsertHeader(Reset(), h)) && InsertHeader(Reset(), h).mark == InsertHeader(Reset(), h).pksz == HEADER
  {}

  // Fetching from a packet that is one frame of one or two words.
  lemma ParseFrame(m: Message)
    requires |m.payload| == 4 || |m.payload| == 8
    ensures |Frame(m)| <= SIZE
    ensures var inc := Parse(Received(Frame(m)));
            && inc.h == Seen(m).h
            && inc.first == FromLe32(m.payload[..4])
            && (|m.payload| == 8 ==> inc.second == FromLe32(m.payload[4..]))
  {
    hide Frame, FetchHeader, FromLe32, Seen;
    var b := Received(Frame(m));
    var vs := if |m.payload| == 4 then [m.payload] else [m.payload[..4], m.payload[4..]];
    ConcatOne(m.payload);
    ConcatTwo(m.payload[..4], m.payload[4..]);
    assert m.payload[..4] + m.payload[4..] == m.payload;
    assert b.data[0..|Frame(m)|] == Frame(m);
    FetchMessage(b, m, vs);
    var b1 := FetchHeader(b).0;
    if |m.payload| == 4 {
      assert m.payload[..4] == m.payload;
      FetchOne(b1, m.payload);
    } else {
      FetchTwo(b1, m.payload[..4], m.payload[4..]);
    }
  }

  lemma ConcatOne(v: seq<uint8>)
    ensures Concat([v]) == v
  {
    assert [v][1..] == [];
    assert Concat([v][1..]) == [];
  }

  lemma ConcatTwo(v: seq<uint8>, w: seq<uint8>)
    ensures Concat([v, w]) == v + w
  {
    assert [v, w][1..] == [w];
    ConcatOne(w);
  }

  lemma FetchAllFirst(b: Buf, vs: seq<seq<uint8>>)
    requires Fits(b) && |vs| > 0
    ensures FetchAll(b, vs).1 == [Fetch(b, |vs[0]|).1] + FetchAll(Fetch(b, |vs[0]|).0, vs[1..]).1
  {}

  lemma FetchOne(b: Buf, v: seq<uint8>)
    requires Fits(b) && |v| == 4 && FetchAll(b, [v]).1 == [v]
    ensures Fetch(b, 4).1 == v
  {
    hide FetchAll, Fetch;
    FetchAllFirst(b, [v]);
    assert [v][0] == Fetch(b, 4).1;
  }

  lemma FetchTwo(b: Buf, v: seq<uint8>, w: seq<uint8>)
    requires Fits(b) && |v| == |w| == 4 && FetchAll(b, [v, w]).1 == [v, w]
    ensures Fetch(b, 4).1 == v && Fetch(Fetch(b, 4).0, 4).1 == w
  {
    hide FetchAll, Fetch;
    var b1 := Fetch(b, 4).0;
    FetchAllFirst(b, [v, w]);
    FetchAllFirst(b1, [w]);
    assert [v, w][1..] == [w];
    assert [v, w][0] == Fetch(b, 4).1;
    assert [v, w][1] == Fetch(b1, 4).1;
  }

  lemma ParseConnect(lsess: uint32, number: uint64)
    ensures var m := ConnectMessage(lsess, number);
            var inc := (ParseFrame(m); Parse(Received(Frame(m))));
            && inc.h == Header(4, CONTROL, CONNECT, lsess, number % TWO_TO_THE_32)
            && inc.first == number / TWO_TO_THE_32
  {
    hide Frame, Parse, Le32, FromLe32;
    var m := ConnectMessage(lsess, number);
    ParseFrame(m);
    LeRoundTrip(number / TWO_TO_THE_32);
    assert m.payload[..4] == m.payload;
  }

  lemma ParseAccept(session: uint32, lsess: uint32, number: uint64)
    ensures var m := AcceptMessage(session, lsess, number);
            var inc := (ParseFrame(m); Parse(Received(Frame(m))));
            && inc.h == Header(8, CONTROL, ACCEPT, session, number % TWO_TO_THE_32)
            && inc.first == lsess && inc.second == number / TWO_TO_THE_32
  {
    hide Frame, Parse, Le32, FromLe32;
    var m := AcceptMessage(session, lsess, number);
    ParseFrame(m);
    LeRoundTrip(lsess);
    LeRoundTrip(number / TWO_TO_THE_32);
    assert m.payload[..4] == Le32(lsess) && m.payload[4..] == Le32(number / TWO_TO_THE_32);
  }

  // ---- The order of the queue ----

  // How many numbers after `start` a number lies, counting round.
  function Offset(number: uint64, start: uint64): uint64 { (number - start) % TWO_TO_THE_64 }

  ghost predicate Ascending(rt: seq<Ref>, start: uint64) {
    forall i, j :: 0 <= i < j < |rt| ==> Offset(rt[i].number, start) < Offset(rt[j].number, start)
  }

  /** After `sends` packets were queued since the counter stood at `start`: the queue ascends
      strictly from there and stays below the counter, across every carry. */
  ghost predicate QueueInv(x: Xfer, start: uint64, sends: nat) {
    && LocalSeq(x) == (start + sends) % TWO_TO_THE_64
    && Ascending(x.rt, start)
    && (forall r :: r in x.rt ==> RefOk(r) && Offset(r.number, start) < sends)
  }

  lemma OffsetOf(start: uint64, sends: nat)
    requires sends < TWO_TO_THE_64
    ensures Offset((start + sends) % TWO_TO_THE_64, start) == sends
  {
    var n := (start + sends) % TWO_TO_THE_64;
    assert n == if start + sends < TWO_TO_THE_64 then start + sends else start + sends - TWO_TO_THE_64;
  }

  lemma EnqueueInv(x: Xfer, b: Buf, ok: bool, start: uint64, sends: nat)
    requires QueueInv(x, start, sends) && sends < TWO_TO_THE_64 && Closable(b)
    ensures QueueInv(Enqueue(x, b, ok), start, if Complete(b).pksz < 1 then sends else sends + 1)
  {
    hide Complete, LocalSeq, Offset;
    var c := Complete(b);
    if c.pksz >= 1 {
      OffsetOf(start, sends);
      AdvanceCounts(x);
      CountOne(start, sends);
      var r := Queued(c.data, c.pksz, LocalSeq(x), ok);
      assert Enqueue(x, b, ok).rt == x.rt + [r];
      assert LocalSeq(Enqueue(x, b, ok)) == LocalSeq(Advance(x)) by { LocalSeqOf(x, b, ok); }
      forall k | 0 <= k < |x.rt|
        ensures Offset(x.rt[k].number, start) < sends
      {
        assert x.rt[k] in x.rt;
      }
    }
  }

  lemma LocalSeqOf(x: Xfer, b: Buf, ok: bool)
    requires Closable(b) && Complete(b).pksz >= 1
    ensures LocalSeq(Enqueue(x, b, ok)) == LocalSeq(Advance(x))
  {
    hide Complete;
  }

  lemma CountOne(start: uint64, sends: nat)
    ensures ((start + sends) % TWO_TO_THE_64 + 1) % TWO_TO_THE_64 == (start + (sends + 1)) % TWO_TO_THE_64
  {}

  // Removing entries, with the rest keeping number and order.
  ghost predicate Thinned(short: seq<Ref>, rt: seq<Ref>, start: uint64) {
    && Ascending(short, start)
    && forall r :: r in short ==> exists q :: q in rt && q.number == r.number
  }

  lemma ThinnedSnoc(short: seq<Ref>, front: seq<Ref>, last: Ref, keep: Option<Ref>, start: uint64)
    requires Ascending(front + [last], start) && Thinned(short, front, start)
    requires keep.Some? ==> keep.value.number == last.number
    ensures Thinned(short + if keep.None? then [] else [keep.value], front + [last], start)
  {
    hide Offset;
    var rt := front + [last];
    var longer := short + if keep.None? then [] else [keep.value];
    forall i, j | 0 <= i < j < |longer|
      ensures Offset(longer[i].number, start) < Offset(longer[j].number, start)
    {
      if j == |short| {
        assert short[i] in short;
        var q :| q in front && q.number == short[i].number;
        var k :| 0 <= k < |front| && front[k] == q;
        assert rt[k] == q && rt[|front|] == last;
      }
    }
    forall r | r in longer
      ensures exists q :: q in rt && q.number == r.number
    {
      if r in short {
        var q :| q in front && q.number == r.number;
        assert q in rt;
      } else {
        assert last in rt && last.number == r.number;
      }
    }
  }

  lemma AscendingFront(front: seq<Ref>, last: Ref, start: uint64)
    requires Ascending(front + [last], start)
    ensures Ascending(front, start)
  {
    hide Offset;
    assert forall k :: 0 <= k < |front| ==> (front + [last])[k] == front[k];
  }

  lemma ThinnedNone(start: uint64)
    ensures Thinned([], [], start)
  {}

  lemma {:induction false} TickThins(rt: seq<Ref>, oks: seq<bool>, start: uint64)
    requires |oks| == |rt| && Ascending(rt, start) && forall r :: r in rt ==> RefOk(r)
    ensures Thinned(Tick(rt, oks), rt, start) && forall r :: r in Tick(rt, oks) ==> RefOk(r)
  {
    hide Offset, TickRef, Ascending, Thinned, RefOk;
    ThinnedNone(start);
    if |rt| > 0 {
      var n := |rt| - 1;
      var front, last := rt[..n], rt[n];
      assert rt == front + [last] && last in rt;
      AscendingFront(front, last, start);
      TickThins(front, oks[..n], start);
      TickRefKeeps(last, oks[n]);
      ThinnedSnoc(Tick(front, oks[..n]), front, last, TickRef(last, oks[n]), start);
    }
  }

  lemma {:induction false} WithoutConnectsThins(rt: seq<Ref>, start: uint64)
    requires Buffers(rt) && Ascending(rt, start)
    ensures Thinned(WithoutConnects(rt), rt, start)
    ensures forall r :: r in WithoutConnects(rt) <==> r in rt && !IsConnect(r)
  {
    hide Offset, IsConnect;
    if |rt| > 0 {
      var n := |rt| - 1;
      var front, last := rt[..n], rt[n];
      assert rt == front + [last];
      WithoutConnectsThins(front, start);
      ThinnedSnoc(WithoutConnects(front), front, last, if IsConnect(last) then None else Some(last), start);
    }
  }

  lemma ThinnedInv(x: Xfer, x': Xfer, start: uint64, sends: nat)
    requires QueueInv(x, start, sends) && Thinned(x'.rt, x.rt, start) && LocalSeq(x') == LocalSeq(x)
    requires forall r :: r in x'.rt ==> RefOk(r)
    ensures QueueInv(x', start, sends)
  {
    hide Offset, LocalSeq, RefOk;
    forall r | r in x'.rt
      ensures Offset(r.number, start) < sends
    {
      var q :| q in x.rt && q.number == r.number;
    }
  }

  // ---- Runs of a connection ----

  datatype Event = Sent(b: Buf, ok: bool) | Ticked(answers: nat -> bool) | Got(inc: Incoming)

  ghost predicate Sendable(es: seq<Event>) {
    forall k :: 0 <= k < |es| && es[k].Sent? ==> Closable(es[k].b)
  }

  lemma {:induction false} TickBuffers(rt: seq<Ref>, oks: seq<bool>)
    requires |oks| == |rt| && Buffers(rt)
    ensures Buffers(Tick(rt, oks))
  {
    if |rt| > 0 {
      var n := |rt| - 1;
      TickBuffers(rt[..n], oks[..n]);
      assert rt[n] in rt;
    }
  }

  function React(x: Xfer, e: Event): (r: Xfer)
    requires Buffers(x.rt) && (e.Sent? ==> Closable(e.b))
    ensures Buffers(r.rt)
  {
    match e
    case Sent(b, ok) => Enqueue(x, b, ok)
    case Ticked(answers) =>
      var oks := seq(|x.rt|, (i: nat) => answers(i));
      TickBuffers(x.rt, oks);
      x.(rt := Tick(x.rt, oks))
    case Got(inc) => Handle(x, inc).0
  }

  function Sends(e: Event): nat
    requires e.Sent? ==> Closable(e.b)
  {
    if e.Sent? && Complete(e.b).pksz >= 1 then 1 else 0
  }

  function Run(x: Xfer, es: seq<Event>): (r: Xfer)
    requires Buffers(x.rt) && Sendable(es)
    ensures Buffers(r.rt)
  {
    if |es| == 0 then x else React(Run(x, es[..|es| - 1]), es[|es| - 1])
  }

  function AllSends(es: seq<Event>): nat
    requires Sendable(es)
  {
    if |es| == 0 then 0 else AllSends(es[..|es| - 1]) + Sends(es[|es| - 1])
  }

  lemma SentInv(x: Xfer, b: Buf, ok: bool, start: uint64, sends: nat)
    requires QueueInv(x, start, sends) && Closable(b) && sends + Sends(Sent(b, ok)) <= TWO_TO_THE_64
    ensures QueueInv(Enqueue(x, b, ok), start, sends + Sends(Sent(b, ok)))
  {
    hide Offset, Complete, LocalSeq, QueueInv;
    if Complete(b).pksz >= 1 {
      EnqueueInv(x, b, ok, start, sends);
    }
  }

  lemma GotInv(x: Xfer, inc: Incoming, start: uint64, sends: nat)
    requires QueueInv(x, start, sends) && Buffers(x.rt)
    ensures QueueInv(Handle(x, inc).0, start, sends)
  {
    hide Offset, IsConnect, AcceptBuf;
    WithoutConnectsThins(x.rt, start);
    if Handle(x, inc).0.rt != x.rt {
      ThinnedInv(x, Handle(x, inc).0, start, sends);
    }
  }

  /** In every run of a connection, up to 2^64 sends: the queue is strictly ascending from where
      the counter started and below the counter, and every timer and attempt count is in range. */
  lemma {:induction false} RunInv(x: Xfer, es: seq<Event>)
    requires x.rt == [] && Sendable(es) && AllSends(es) <= TWO_TO_THE_64
    ensures QueueInv(Run(x, es), LocalSeq(x), AllSends(es))
  {
    hide Offset, Sends, Enqueue, Handle, Tick, LocalSeq, RefOk;
    if |es| == 0 {
      assert QueueInv(x, LocalSeq(x), 0);
    } else {
      var n := |es| - 1;
      RunInv(x, es[..n]);
      var m, start, sends := Run(x, es[..n]), LocalSeq(x), AllSends(es[..n]);
      match es[n]
      case Sent(b, ok) => SentInv(m, b, ok, start, sends);
      case Ticked(answers) =>
        NoSends(es[n]);
        var oks := seq(|m.rt|, (i: nat) => answers(i));
        TickThins(m.rt, oks, start);
        LocalSeqKept(m, Tick(m.rt, oks));
        ThinnedInv(m, React(m, es[n]), start, sends);
      case Got(inc) =>
        NoSends(es[n]);
        GotInv(m, inc, start, sends);
    }
  }

  lemma NoSends(e: Event)
    requires !e.Sent?
    ensures Sends(e) == 0
  {}

  lemma LocalSeqKept(x: Xfer, rt: seq<Ref>)
    ensures LocalSeq(x.(rt := rt)) == LocalSeq(x)
  {}

  /** Equal numbers never occur twice in the queue. */
  lemma DistinctNumbers(x: Xfer, start: uint64, sends: nat, i: nat, j: nat)
    requires QueueInv(x, start, sends) && i < j < |x.rt|
    ensures x.rt[i].number != x.rt[j].number
  {}
}
