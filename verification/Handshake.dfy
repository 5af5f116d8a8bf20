/** The handshake agrees: an invariant of every run of `HandshakeSpec`, and what it gives. */
module Handshake {
  import opened MachineTypes
  import opened PacketSpec
  import Frames
  import opened TransferSpec
  import opened TransferQueue
  import opened SystemSpec
  import opened AddressOrder
  import opened HandshakeSpec

  type Book = map<Key, Asked>

  // ---- The invariant ----

  // The bytes are the request of the client `key`.
  ghost predicate IsRequest(asked: Book, key: Key, to: Address, inc: Incoming) {
    && Requests(inc) && inc.h.session == key.1
    && key in asked && asked[key].to == to && Seq64(inc.first, inc.h.sequence) == asked[key].number
  }

  // One of the system's clients called `to`.
  ghost predicate Calls(asked: Book, a: Address, to: Address) { exists c :: (a, c) in asked && asked[(a, c)].to == to }

  // What a system may have put on the network: data for a system it called, a request of its own, or
  // the answer of one of its sessions.
  ghost predicate FromSession(n: Node<Conn>, to: Address, inc: Incoming) {
    && Accepts(inc) && SlotOf(to, inc.h.session) in n.pas && n.pas[SlotOf(to, inc.h.session)] in n.at
    && var y := n.at[n.pas[SlotOf(to, inc.h.session)]];
    && y.remote == to && inc.first == y.lsess && Seq64(inc.second, inc.h.sequence) == LocalSeq(y)
  }

  ghost predicate Sendable(a: Address, n: Node<Conn>, asked: Book, out: Outgoing) {
    && 1 <= |out.bytes| <= SIZE
    && var inc := Parse(Received(out.bytes));
    || (!IsControl(inc.h.flags) && Calls(asked, a, out.to))
    || IsRequest(asked, (a, inc.h.session), out.to, inc)
    || FromSession(n, out.to, inc)
  }

  // A client's queue holds its request and data.
  ghost predicate QueueOk(a: Address, x: Xfer, asked: Book) {
    forall r :: r in x.rt ==>
      && |r.data| == SIZE && 1 <= r.pksz <= SIZE
      && (PlainBytes(r.data[..r.pksz]) || IsRequest(asked, (a, x.lsess), x.remote, Parse(Received(r.data[..r.pksz]))))
  }

  ghost predicate ClientOk(a: Address, x: Xfer, asked: Book) {
    (a, x.lsess) in asked && x.remote == asked[(a, x.lsess)].to && QueueOk(a, x, asked)
  }

  // A request with this number was made to `a` for the slot.
  ghost predicate Heard(asked: Book, slot: Slot, a: Address, number: uint64) {
    exists k :: k in asked && SlotOf(k.0, k.1) == slot && asked[k].to == a && asked[k].number == number
  }

  // A session belongs to the first client that asked for its slot, and has the number of one that did.
  ghost predicate SessionOk(a: Address, slot: Slot, y: Xfer, asked: Book) {
    && SlotOf(y.remote, y.rsess) == slot && y.rt == []
    && (y.remote, y.rsess) in asked && asked[(y.remote, y.rsess)].to == a
    && Heard(asked, slot, a, RemoteSeq(y))
  }

  ghost predicate TablesOk(n: Node<Conn>) {
    && WellFormed(n)
    && (forall id :: id in n.mim ==> n.at[n.mim[id]].lsess == id)
    && (forall t :: t in n.at ==> n.at[t].lsess in n.mim && n.mim[n.at[t].lsess] == t)
  }

  ghost predicate NodeOk(a: Address, n: Node<Conn>, asked: Book) {
    && TablesOk(n)
    && (forall slot :: slot in n.pas ==> SessionOk(a, slot, n.at[n.pas[slot]], asked))
    && (forall t :: t in n.at && t !in n.pas.Values ==> ClientOk(a, n.at[t], asked))
    && (forall c :: (a, c) in asked ==> c in n.mim && n.mim[c] !in n.pas.Values)
  }

  // The client at `na` took over what the session at `nb` told it.
  ghost predicate AnsweredOk(na: Node<Conn>, nb: Node<Conn>, key: Key) {
    && key.1 in na.mim && na.mim[key.1] in na.at
    && SlotOf(key.0, key.1) in nb.pas && nb.pas[SlotOf(key.0, key.1)] in nb.at
    && var x, y := na.at[na.mim[key.1]], nb.at[nb.pas[SlotOf(key.0, key.1)]];
    && y.remote == key.0 && x.rsess == y.lsess && RemoteSeq(x) == LocalSeq(y)
  }

  ghost predicate BooksOk(w: World) {
    && (forall key :: key in w.asked ==> key.0 in w.nodes)
    && (forall key :: key in w.answered ==>
          && key in w.asked && w.asked[key].to in w.nodes
          && AnsweredOk(w.nodes[key.0], w.nodes[w.asked[key].to], key))
  }

  ghost predicate NetOk(w: World) {
    forall d :: d in w.net ==> d.from in w.nodes && Sendable(d.from, w.nodes[d.from], w.asked, Outgoing(d.to, d.bytes))
  }

  ghost predicate Inv(w: World) {
    && (forall a :: a in w.nodes ==> NodeOk(a, w.nodes[a], w.asked))
    && BooksOk(w) && NetOk(w)
  }

  // ---- What no step of a system takes back ----

  // Sessions keep their client, their id and their own number, and every client keeps what it learned; `but` may learn.
  ghost predicate Grows(n: Node<Conn>, n': Node<Conn>, but: set<uint32>) {
    && (forall slot :: slot in n.pas && n.pas[slot] in n.at ==>
          && slot in n'.pas && n'.pas[slot] in n'.at
          && n'.at[n'.pas[slot]].remote == n.at[n.pas[slot]].remote
          && n'.at[n'.pas[slot]].lsess == n.at[n.pas[slot]].lsess
          && LocalSeq(n'.at[n'.pas[slot]]) == LocalSeq(n.at[n.pas[slot]]))
    && (forall c :: c in n.mim && n.mim[c] in n.at && n.mim[c] !in n.pas.Values && c !in but ==>
          && c in n'.mim && n'.mim[c] in n'.at
          && n'.at[n'.mim[c]].rsess == n.at[n.mim[c]].rsess
          && RemoteSeq(n'.at[n'.mim[c]]) == RemoteSeq(n.at[n.mim[c]]))
  }

  // More requests were made, by `a` only.
  ghost predicate Extends(asked: Book, asked': Book, a: Address) {
    && (forall key :: key in asked ==> key in asked' && asked'[key] == asked[key])
    && (forall key :: key in asked' && key !in asked ==> key.0 == a)
  }

  lemma SendableKept(a: Address, n: Node<Conn>, n': Node<Conn>, asked: Book, asked': Book, b: Address, out: Outgoing,
                     but: set<uint32>)
    requires Sendable(a, n, asked, out) && Grows(n, n', but) && Extends(asked, asked', b)
    ensures Sendable(a, n', asked', out)
  {
    hide Parse, Received, LocalSeq, RemoteSeq, IsControl, Calls;
    if Calls(asked, a, out.to) {
      CallsKept(asked, asked', a, b, out.to);
    }
  }

  lemma CallsKept(asked: Book, asked': Book, a: Address, b: Address, to: Address)
    requires Calls(asked, a, to) && Extends(asked, asked', b)
    ensures Calls(asked', a, to)
  {
    var c :| (a, c) in asked && asked[(a, c)].to == to;
    assert (a, c) in asked';
  }

  lemma ClientCalls(a: Address, x: Xfer, asked: Book)
    requires ClientOk(a, x, asked)
    ensures Calls(asked, a, x.remote)
  {
    hide QueueOk;
    assert (a, x.lsess) in asked;
  }

  lemma OtherNodeKept(b: Address, n: Node<Conn>, asked: Book, asked': Book, a: Address)
    requires NodeOk(b, n, asked) && Extends(asked, asked', a) && a != b
    ensures NodeOk(b, n, asked')
  {
    hide LocalSeq, RemoteSeq, ClientOk, SessionOk;
    forall slot | slot in n.pas ensures SessionOk(b, slot, n.at[n.pas[slot]], asked') {
      SessionKept(b, slot, n.at[n.pas[slot]], asked, asked', a);
    }
    forall t | t in n.at && t !in n.pas.Values ensures ClientOk(b, n.at[t], asked') {
      ClientKept(b, n.at[t], asked, asked', a);
    }
  }

  lemma AnsweredKept(na: Node<Conn>, na': Node<Conn>, nb: Node<Conn>, nb': Node<Conn>, key: Key, but: set<uint32>,
                     but': set<uint32>)
    requires AnsweredOk(na, nb, key) && Grows(na, na', but) && Grows(nb, nb', but') && key.1 !in but
    requires na.mim[key.1] !in na.pas.Values
    ensures AnsweredOk(na', nb', key)
  {
    hide LocalSeq, RemoteSeq;
  }

  lemma GrowsSame(n: Node<Conn>)
    ensures Grows(n, n, {})
  {}

  lemma ToNetIs(a: Address, out: seq<Outgoing>, d: Datagram)
    requires d in ToNet(a, out)
    ensures d.from == a && Outgoing(d.to, d.bytes) in out
  {
    var ds := seq(|out|, k requires 0 <= k < |out| => Datagram(a, out[k].to, out[k].bytes));
    assert d in ds;
    var k :| 0 <= k < |ds| && ds[k] == d;
    assert out[k] == Outgoing(d.to, d.bytes);
  }

  // The system at `b` after `a` moved to `n'`.
  function After(w: World, a: Address, n': Node<Conn>, b: Address): Node<Conn>
    requires b in w.nodes
  {
    if b == a then n' else w.nodes[b]
  }

  // What has to be known of one system's move for the invariant of the world.
  ghost predicate GoodMove(w: World, w': World, a: Address, n': Node<Conn>, out: seq<Outgoing>, but: set<uint32>) {
    && a in w.nodes && w'.nodes == w.nodes[a := n']
    && NodeOk(a, n', w'.asked) && Grows(w.nodes[a], n', but) && Extends(w.asked, w'.asked, a)
    && (forall o :: o in out ==> Sendable(a, n', w'.asked, o))
    && (forall d :: d in w'.net ==> d in w.net || d in ToNet(a, out))
    && (forall key :: key in w'.answered ==>
          || (key in w.answered && !(key.0 == a && key.1 in but))
          || (key.0 == a && key in w'.asked && w'.asked[key].to in w.nodes
              && AnsweredOk(n', After(w, a, n', w'.asked[key].to), key)))
  }

  lemma MovedNodes(w: World, w': World, a: Address, n': Node<Conn>, out: seq<Outgoing>, but: set<uint32>)
    requires Inv(w) && GoodMove(w, w', a, n', out, but)
    ensures forall b :: b in w'.nodes ==> NodeOk(b, w'.nodes[b], w'.asked)
  {
    hide NodeOk, Grows, Sendable, AnsweredOk, Extends;
    forall b | b in w'.nodes ensures NodeOk(b, w'.nodes[b], w'.asked) {
      if b != a {
        OtherNodeKept(b, w.nodes[b], w.asked, w'.asked, a);
      }
    }
  }

  lemma MovedNet(w: World, w': World, a: Address, n': Node<Conn>, out: seq<Outgoing>, but: set<uint32>)
    requires Inv(w) && GoodMove(w, w', a, n', out, but)
    ensures NetOk(w')
  {
    hide NodeOk, Grows, Sendable, AnsweredOk, Extends;
    forall d | d in w'.net
      ensures d.from in w'.nodes && Sendable(d.from, w'.nodes[d.from], w'.asked, Outgoing(d.to, d.bytes))
    {
      if d in w.net {
        GrowsSame(w.nodes[d.from]);
        SendableKept(d.from, w.nodes[d.from], w'.nodes[d.from], w.asked, w'.asked, a, Outgoing(d.to, d.bytes),
                     if d.from == a then but else {});
      } else {
        ToNetIs(a, out, d);
      }
    }
  }

  lemma MovedBooks(w: World, w': World, a: Address, n': Node<Conn>, out: seq<Outgoing>, but: set<uint32>)
    requires Inv(w) && GoodMove(w, w', a, n', out, but)
    ensures BooksOk(w')
  {
    hide NodeOk, Grows, Sendable, AnsweredOk;
    forall key | key in w'.answered
      ensures key in w'.asked && w'.asked[key].to in w'.nodes
              && AnsweredOk(w'.nodes[key.0], w'.nodes[w'.asked[key].to], key)
    {
      if key in w.answered && !(key.0 == a && key.1 in but) {
        var b := w.asked[key].to;
        GrowsSame(w.nodes[key.0]);
        GrowsSame(w.nodes[b]);
        ClientKnown(key.0, w.nodes[key.0], w.asked, key.1);
        AnsweredKept(w.nodes[key.0], w'.nodes[key.0], w.nodes[b], w'.nodes[b], key,
                     if key.0 == a then but else {}, if b == a then but else {});
      }
    }
  }

  lemma Moved(w: World, w': World, a: Address, n': Node<Conn>, out: seq<Outgoing>, but: set<uint32>)
    requires Inv(w) && GoodMove(w, w', a, n', out, but)
    ensures Inv(w')
  {
    hide NodeOk, GoodMove, NetOk, BooksOk;
    MovedNodes(w, w', a, n', out, but);
    MovedNet(w, w', a, n', out, but);
    MovedBooks(w, w', a, n', out, but);
  }

  // ---- Dialling ----

  lemma RequestSeen(id: uint32, number: uint64)
    ensures 1 <= |Frames.Frame(ConnectMessage(id, number))| <= SIZE
    ensures var inc := Parse(Received(Frames.Frame(ConnectMessage(id, number))));
            Requests(inc) && inc.h.session == id && Seq64(inc.first, inc.h.sequence) == number
  {
    hide Frames.Frame, Parse, Received, ConnectMessage;
    ConnectSized(id, number);
    ParseConnect(id, number);
  }

  lemma ConnectSized(id: uint32, number: uint64)
    ensures |Frames.Frame(ConnectMessage(id, number))| == 20
  {
    hide Frames.Frame, Le32;
  }

  // The queue of a connection that just sent its request.
  lemma DialledQueue(x: Xfer, ok: bool)
    requires x.rt == []
    ensures var x' := (ConnectBytes(x); Enqueue(x, ConnectBuf(x), ok));
            && x'.remote == x.remote && x'.lsess == x.lsess && |x'.rt| == 1
            && |x'.rt[0].data| == SIZE && x'.rt[0].pksz == 20
            && x'.rt[0].data[..20] == Frames.Frame(ConnectMessage(x.lsess, LocalSeq(x)))
  {
    hide Complete, ConnectBuf, Frames.Frame, ConnectMessage;
    ConnectBytes(x);
  }

  lemma DialledClient(a: Address, to: Address, x: Xfer, id: uint32, ok: bool, asked: Book)
    requires x.rt == [] && (a, id) in asked && asked[(a, id)] == Asked(to, LocalSeq(x))
    ensures var x1 := x.(remote := to, lsess := id);
            var x' := (ConnectBytes(x1); Enqueue(x1, ConnectBuf(x1), ok));
            ClientOk(a, x', asked) && x'.lsess == id && Buffers(x'.rt)
  {
    hide Frames.Frame, ConnectMessage, Parse, Received, Enqueue, ConnectBuf, Requests;
    DialledQueue(x.(remote := to, lsess := id), ok);
    RequestSeen(id, LocalSeq(x));
  }

  lemma ClientKept(a: Address, x: Xfer, asked: Book, asked': Book, who: Address)
    requires ClientOk(a, x, asked) && Extends(asked, asked', who)
    ensures ClientOk(a, x, asked')
  {
    hide Parse, Received, Requests, PlainBytes;
  }

  lemma SessionKept(a: Address, slot: Slot, y: Xfer, asked: Book, asked': Book, who: Address)
    requires SessionOk(a, slot, y, asked) && Extends(asked, asked', who)
    ensures SessionOk(a, slot, y, asked')
  {
    hide RemoteSeq;
    var k :| k in asked && SlotOf(k.0, k.1) == slot && asked[k].to == a && asked[k].number == RemoteSeq(y);
    assert k in asked' && asked'[k] == asked[k];
  }

  // A new connection takes its place in the tables.
  lemma EntryAdded(n: Node<Conn>, n': Node<Conn>, t: Conn, id: uint32)
    requires TablesOk(n) && Unused(n, t, id)
    requires n'.mim == n.mim[id := t] && n'.at.Keys == n.at.Keys + {t} && n'.mis == [t] + n.mis
    requires forall u :: u in n.at ==> n'.at[u] == n.at[u]
    requires n'.at[t].lsess == id && Buffers(n'.at[t].rt)
    requires forall key :: key in n'.pas ==> n'.pas[key] == t || (key in n.pas && n'.pas[key] == n.pas[key])
    ensures TablesOk(n') && (forall key :: key in n.pas ==> n.pas[key] in n.at && n.pas[key] != t)
    ensures forall c :: c in n.mim ==> n.mim[c] in n.at && n.mim[c] != t
  {
    hide Buffers;
  }

  lemma EntryGrows(n: Node<Conn>, n': Node<Conn>, t: Conn, id: uint32)
    requires Unused(n, t, id) && n'.mim == n.mim[id := t] && n'.pas == n.pas && n'.at.Keys == n.at.Keys + {t}
    requires forall u :: u in n.at ==> n'.at[u] == n.at[u]
    ensures Grows(n, n', {})
  {
    hide LocalSeq, RemoteSeq;
  }

  lemma RequestSendable(a: Address, n: Node<Conn>, asked: Book, to: Address, x: Xfer, id: uint32)
    requires (a, id) in asked && asked[(a, id)] == Asked(to, LocalSeq(x))
    ensures Sendable(a, n, asked, Request(to, x, id))
  {
    hide Frames.Frame, ConnectMessage, Parse, Received, Requests, LocalSeq;
    RequestSeen(id, LocalSeq(x));
  }

  lemma DialMove(a: Address, n: Node<Conn>, asked: Book, to: Address, t: Conn, x: Xfer, id: uint32, ok: bool)
    requires NodeOk(a, n, asked) && Unused(n, t, id) && x.rt == []
    ensures var n', asked' := Dial(n, to, t, x, id, ok), asked[(a, id) := Asked(to, LocalSeq(x))];
            && NodeOk(a, n', asked') && Grows(n, n', {}) && Extends(asked, asked', a)
            && Sendable(a, n', asked', Request(to, x, id))
  {
    hide Enqueue, ConnectBuf, LocalSeq, ClientOk, RemoteSeq, TablesOk, SessionOk, Sendable, Request, Grows;
    var n', asked' := Dial(n, to, t, x, id, ok), asked[(a, id) := Asked(to, LocalSeq(x))];
    DialledClient(a, to, x, id, ok, asked');
    EntryAdded(n, n', t, id);
    EntryGrows(n, n', t, id);
    RequestSendable(a, n', asked', to, x, id);
    assert Extends(asked, asked', a);
    forall u | u in n'.at && u !in n'.pas.Values ensures ClientOk(a, n'.at[u], asked') {
      if u != t {
        ClientKept(a, n.at[u], asked, asked', a);
      }
    }
    forall slot | slot in n'.pas ensures SessionOk(a, slot, n'.at[n'.pas[slot]], asked') {
      SessionKept(a, slot, n.at[n.pas[slot]], asked, asked', a);
    }
  }

  // ---- A change of one connection ----

  lemma TablesChanged(n: Node<Conn>, at: map<Conn, Xfer>)
    requires TablesOk(n) && at.Keys == n.at.Keys
    requires forall t :: t in n.at ==> at[t].lsess == n.at[t].lsess && Buffers(at[t].rt)
    ensures TablesOk(n.(at := at))
  {
    hide Buffers;
  }

  lemma ClientChanged(a: Address, n: Node<Conn>, asked: Book, t: Conn, x: Xfer, but: set<uint32>)
    requires NodeOk(a, n, asked) && t in n.at && t !in n.pas.Values
    requires ClientOk(a, x, asked) && Buffers(x.rt) && x.lsess == n.at[t].lsess
    requires x.lsess in but || (x.rsess == n.at[t].rsess && RemoteSeq(x) == RemoteSeq(n.at[t]))
    ensures NodeOk(a, n.(at := n.at[t := x]), asked) && Grows(n, n.(at := n.at[t := x]), but)
  {
    hide Buffers, ClientOk, SessionOk, LocalSeq, RemoteSeq;
  }

  // ---- Data packets ----

  lemma EnqueueIs(x: Xfer, b: Buf, ok: bool)
    requires Closable(b)
    ensures var c, x' := Complete(b), Enqueue(x, b, ok);
            && (x'.remote, x'.lsess, x'.rsess) == (x.remote, x.lsess, x.rsess) && RemoteSeq(x') == RemoteSeq(x)
            && |c.data| == SIZE && c.pksz <= SIZE
            && (c.pksz < 1 ==> x' == x)
            && (c.pksz >= 1 ==>
                  && |x'.rt| == |x.rt| + 1 && x'.rt[..|x.rt|] == x.rt
                  && x'.rt[|x.rt|].data == c.data && x'.rt[|x.rt|].pksz == c.pksz)
  {
    hide Complete;
  }

  lemma UserQueue(a: Address, x: Xfer, b: Buf, ok: bool, asked: Book)
    requires ClientOk(a, x, asked) && Closable(b) && PlainPacket(b)
    ensures ClientOk(a, Enqueue(x, b, ok), asked) && Buffers(Enqueue(x, b, ok).rt)
  {
    hide Complete, Enqueue, Parse, Received, Requests, IsRequest, PlainBytes, RemoteSeq;
    EnqueueIs(x, b, ok);
    var x' := Enqueue(x, b, ok);
    forall r | r in x'.rt
      ensures r in x.rt || (r.data == Complete(b).data && r.pksz == Complete(b).pksz && r.pksz >= 1)
    {
      var k :| 0 <= k < |x'.rt| && x'.rt[k] == r;
      if k < |x.rt| {
        assert x'.rt[..|x.rt|][k] == r;
      }
    }
  }

  lemma UserMove(a: Address, n: Node<Conn>, asked: Book, t: Conn, b: Buf, ok: bool)
    requires NodeOk(a, n, asked) && t in n.at && t !in n.pas.Values && Closable(b) && PlainPacket(b)
    ensures var n' := n.(at := n.at[t := Enqueue(n.at[t], b, ok)]);
            && NodeOk(a, n', asked) && Grows(n, n', {})
            && forall o :: o in UserOut(n.at[t], b) ==> Sendable(a, n', asked, o)
  {
    hide Complete, Enqueue, Parse, Received, Requests, IsRequest, FromSession, ClientOk, SessionOk, TablesOk, Buffers,
         RemoteSeq, Calls;
    EnqueueIs(n.at[t], b, ok);
    ClientCalls(a, n.at[t], asked);
    UserQueue(a, n.at[t], b, ok, asked);
    ClientChanged(a, n, asked, t, Enqueue(n.at[t], b, ok), {});
  }

  // ---- Ticks ----

  // Every entry after a tick is an entry from before, with new timers.
  lemma {:induction false} TickKeepsData(rt: seq<Ref>, oks: seq<bool>)
    requires |oks| == |rt|
    ensures forall r :: r in Tick(rt, oks) ==> exists q :: q in rt && q.data == r.data && q.pksz == r.pksz
  {
    hide Due;
    if |rt| > 0 {
      var n := |rt| - 1;
      TickKeepsData(rt[..n], oks[..n]);
      forall r | r in Tick(rt, oks) ensures exists q :: q in rt && q.data == r.data && q.pksz == r.pksz {
        if r in Tick(rt[..n], oks[..n]) {
          var q :| q in rt[..n] && q.data == r.data && q.pksz == r.pksz;
          assert q in rt;
        } else {
          assert rt[n] in rt && rt[n].data == r.data && rt[n].pksz == r.pksz;
        }
      }
    }
  }

  lemma {:induction false} TickSendsFrom(rt: seq<Ref>)
    requires Sized(rt)
    ensures forall p :: p in TickSends(rt) ==> exists q :: q in rt && p == q.data[..q.pksz]
  {
    hide Resent;
    if |rt| > 0 {
      var n := |rt| - 1;
      TickSendsFrom(rt[..n]);
      forall p | p in TickSends(rt) ensures exists q :: q in rt && p == q.data[..q.pksz] {
        if p in TickSends(rt[..n]) {
          var q :| q in rt[..n] && p == q.data[..q.pksz];
          assert q in rt;
        } else {
          assert rt[n] in rt && p == rt[n].data[..rt[n].pksz];
        }
      }
    }
  }

  lemma TickClient(a: Address, x: Xfer, answers: nat -> bool, asked: Book)
    requires ClientOk(a, x, asked)
    ensures ClientOk(a, TickXfer(x, answers), asked) && Buffers(TickXfer(x, answers).rt)
  {
    hide Tick, Parse, Received, IsRequest, PlainBytes;
    TickKeepsData(x.rt, seq(|x.rt|, (i: nat) => answers(i)));
  }

  // The parts of a connection that a tick does not touch.
  lemma TickXferIs(x: Xfer, answers: nat -> bool)
    ensures var x' := TickXfer(x, answers);
            && x' == x.(rt := x'.rt) && (x.rt == [] ==> x' == x)
            && LocalSeq(x') == LocalSeq(x) && RemoteSeq(x') == RemoteSeq(x)
  {}

  lemma SessionIdle(a: Address, n: Node<Conn>, asked: Book, t: Conn)
    requires NodeOk(a, n, asked) && t in n.at && t in n.pas.Values
    ensures n.at[t].rt == [] && Buffers(n.at[t].rt)
  {
    hide ClientOk, TablesOk;
  }

  lemma TablesInside(n: Node<Conn>)
    requires TablesOk(n)
    ensures WellFormed(n) && (forall key :: key in n.pas ==> n.pas[key] in n.at)
         && (forall c :: c in n.mim ==> n.mim[c] in n.at)
  {}

  lemma TickMove(a: Address, n: Node<Conn>, asked: Book, answers: Conn -> nat -> bool)
    requires NodeOk(a, n, asked)
    ensures NodeOk(a, TickAll(n, answers), asked) && Grows(n, TickAll(n, answers), {})
  {
    hide TickXfer, Buffers, ClientOk, SessionOk, TablesOk, RemoteSeq, LocalSeq;
    var n' := TickAll(n, answers);
    forall t | t in n.at
      ensures n'.at[t].lsess == n.at[t].lsess && n'.at[t].rsess == n.at[t].rsess && Buffers(n'.at[t].rt)
      ensures LocalSeq(n'.at[t]) == LocalSeq(n.at[t]) && RemoteSeq(n'.at[t]) == RemoteSeq(n.at[t])
      ensures t in n.pas.Values ==> n'.at[t] == n.at[t]
      ensures t !in n.pas.Values ==> ClientOk(a, n'.at[t], asked)
    {
      TickXferIs(n.at[t], answers(t));
      if t !in n.pas.Values {
        TickClient(a, n.at[t], answers(t), asked);
      } else {
        SessionIdle(a, n, asked, t);
      }
    }
    TablesInside(n);
    TablesChanged(n, n'.at);
  }

  lemma QueueSized(a: Address, n: Node<Conn>, asked: Book)
    requires NodeOk(a, n, asked)
    ensures Ready(n)
  {
    hide Parse, Received, IsRequest, PlainBytes;
    forall t | t in n.at ensures Sized(n.at[t].rt) {
      if t in n.pas.Values {
        var slot :| slot in n.pas && n.pas[slot] == t;
        assert SessionOk(a, slot, n.at[t], asked);
      } else {
        assert ClientOk(a, n.at[t], asked);
      }
    }
  }

  lemma TickOut(a: Address, n: Node<Conn>, asked: Book, t: Conn, p: seq<uint8>)
    requires NodeOk(a, n, asked) && t in n.at && Sized(n.at[t].rt) && p in TickSends(n.at[t].rt)
    ensures Sendable(a, n, asked, Outgoing(n.at[t].remote, p))
  {
    hide Parse, Received, TickSends, TablesOk, Requests, Calls;
    TickSendsFrom(n.at[t].rt);
    var q :| q in n.at[t].rt && p == q.data[..q.pksz];
    assert ClientOk(a, n.at[t], asked);
    ClientCalls(a, n.at[t], asked);
  }

  lemma {:induction false} TickOuts(a: Address, n: Node<Conn>, asked: Book, mis: seq<Conn>)
    requires NodeOk(a, n, asked) && forall k :: 0 <= k < |mis| ==> mis[k] in n.at && Sized(n.at[mis[k]].rt)
    ensures forall o :: o in TickAllSends(mis, n.at) ==> Sendable(a, n, asked, o)
  {
    hide NodeOk, Sendable, TickSends, Sized;
    if |mis| > 0 {
      var m := |mis| - 1;
      var t := mis[m];
      TickOuts(a, n, asked, mis[..m]);
      forall o | o in TickAllSends(mis, n.at) ensures Sendable(a, n, asked, o) {
        if o !in TickAllSends(mis[..m], n.at) {
          var ps := TickSends(n.at[t].rt);
          var k :| 0 <= k < |ps| && Addressed(n.at[t].remote, ps)[k] == o;
          TickOut(a, n, asked, t, ps[k]);
        }
      }
    }
  }

  // ---- Deliveries ----

  lemma PlainMove(n: Node<Conn>, from: Address, inc: Incoming, t: Conn, low: uint32, high: uint32, id: uint32)
    requires WellFormed(n) && !IsControl(inc.h.flags)
    ensures Receive(n, from, inc, t, low, high, id) == (n, None)
  {
    hide Buffers, AcceptBuf, WithoutConnects;
    var c := inc.h.session;
    if c in n.mim {
      assert n.at[n.mim[c] := n.at[n.mim[c]]] == n.at;
    }
  }

  lemma AcceptSeen(session: uint32, lsess: uint32, number: uint64)
    ensures 1 <= |Frames.Frame(AcceptMessage(session, lsess, number))| <= SIZE
    ensures var inc := Parse(Received(Frames.Frame(AcceptMessage(session, lsess, number))));
            && Accepts(inc) && inc.h.session == session && inc.first == lsess
            && Seq64(inc.second, inc.h.sequence) == number
  {
    hide Frames.Frame, Parse, Received, AcceptMessage;
    AcceptSized(session, lsess, number);
    ParseAccept(session, lsess, number);
  }

  lemma AcceptSized(session: uint32, lsess: uint32, number: uint64)
    ensures |Frames.Frame(AcceptMessage(session, lsess, number))| == 24
  {
    hide Frames.Frame, Le32;
  }

  // What a session does with its client's request: the numbers are noted, and the answer tells
  // the client both ids and the session's own number.
  lemma RequestHandled(y: Xfer, inc: Incoming)
    requires Requests(inc) && Buffers(y.rt)
    ensures Handle(y, inc).0 == y.(rseq := inc.h.sequence, rseqh := inc.first)
    ensures Handle(y, inc).1.Some? && 1 <= |Handle(y, inc).1.value| <= SIZE
    ensures var seen := Parse(Received(Handle(y, inc).1.value));
            && Accepts(seen) && seen.h.session == y.rsess && seen.first == y.lsess
            && Seq64(seen.second, seen.h.sequence) == LocalSeq(y)
  {
    hide Frames.Frame, Parse, Received, AcceptMessage, AcceptBuf, WithoutConnects, Accepts;
    var y' := y.(rseq := inc.h.sequence, rseqh := inc.first);
    AcceptBytes(y', inc.h);
    AcceptSeen(y.rsess, y.lsess, LocalSeq(y));
  }

  lemma NumberHalves(y: Xfer, low: uint32, high: uint32)
    requires RemoteSeq(y) == Seq64(high, low)
    ensures y.(rseq := low, rseqh := high) == y
  {}

  // The session of a slot notes another number.
  lemma SessionChanged(a: Address, n: Node<Conn>, asked: Book, slot: Slot, y: Xfer)
    requires NodeOk(a, n, asked) && slot in n.pas && SessionOk(a, slot, y, asked) && Buffers(y.rt)
    requires SameSession(n.at[n.pas[slot]], y)
    ensures var n' := n.(at := n.at[n.pas[slot] := y]); NodeOk(a, n', asked) && Grows(n, n', {})
  {
    hide Buffers, ClientOk, LocalSeq, RemoteSeq, SessionOk, TablesOk, Grows;
    TablesInside(n);
    var s := n.pas[slot];
    var n' := n.(at := n.at[s := y]);
    TablesChanged(n, n'.at);
    forall k | k in n.pas ensures SessionOk(a, k, n'.at[n'.pas[k]], asked) {
      SlotIs(a, k, n.at[n.pas[k]], asked);
      SlotIs(a, slot, n.at[s], asked);
    }
    forall c | (a, c) in asked ensures n'.mim[c] !in n'.pas.Values {}
    SessionGrows(a, n, asked, slot, y);
  }

  ghost predicate SameSession(x: Xfer, y: Xfer) {
    y.remote == x.remote && y.lsess == x.lsess && y.rsess == x.rsess && LocalSeq(y) == LocalSeq(x)
  }

  lemma SlotIs(a: Address, slot: Slot, y: Xfer, asked: Book)
    requires SessionOk(a, slot, y, asked)
    ensures SlotOf(y.remote, y.rsess) == slot
  {
    hide Heard;
  }

  lemma SessionGrows(a: Address, n: Node<Conn>, asked: Book, slot: Slot, y: Xfer)
    requires NodeOk(a, n, asked) && slot in n.pas && n.pas[slot] in n.at && SameSession(n.at[n.pas[slot]], y)
    ensures Grows(n, n.(at := n.at[n.pas[slot] := y]), {})
  {
    hide Buffers, ClientOk, SessionOk, LocalSeq, RemoteSeq;
  }

  // A request for a slot that has its session: the session notes the number and answers its client.
  lemma RepeatMove(a: Address, n: Node<Conn>, asked: Book, from: Address, inc: Incoming, t: Conn,
                   low: uint32, high: uint32, id: uint32)
    requires NodeOk(a, n, asked) && IsRequest(asked, (from, inc.h.session), a, inc)
          && SlotOf(from, inc.h.session) in n.pas
    ensures WellFormed(n)
    ensures var (n', reply) := Receive(n, from, inc, t, low, high, id);
            && NodeOk(a, n', asked) && Grows(n, n', {}) && AnswersSlot(n', SlotOf(from, inc.h.session), inc, reply)
  {
    hide Parse, Received, Handle, Accepts, LocalSeq, RemoteSeq, ClientOk, Seq64, TablesOk;
    var slot := SlotOf(from, inc.h.session);
    TablesInside(n);
    var y := n.at[n.pas[slot]];
    assert SessionOk(a, slot, y, asked);
    RequestHandled(y, inc);
    HandledOk(a, slot, y, inc, (from, inc.h.session), asked);
    SessionChanged(a, n, asked, slot, Handle(y, inc).0);
  }

  /** A repeated request of a client whose number nobody overwrote changes nothing. */
  lemma RepeatIsIdle(a: Address, n: Node<Conn>, asked: Book, from: Address, inc: Incoming, t: Conn,
                     low: uint32, high: uint32, id: uint32)
    requires NodeOk(a, n, asked) && IsRequest(asked, (from, inc.h.session), a, inc)
          && SlotOf(from, inc.h.session) in n.pas
    requires Undisturbed(asked, (from, inc.h.session))
    ensures WellFormed(n) && Receive(n, from, inc, t, low, high, id).0 == n
  {
    hide Handle, LocalSeq, RemoteSeq, ClientOk, Seq64, TablesOk;
    var slot := SlotOf(from, inc.h.session);
    TablesInside(n);
    var y := n.at[n.pas[slot]];
    assert SessionOk(a, slot, y, asked);
    RequestHandled(y, inc);
    NumberHalves(y, inc.h.sequence, inc.first);
    assert n.at[n.pas[slot] := y] == n.at;
  }

  // The outcome of a request: its slot has a session that noted its number and answers its client.
  ghost predicate AnswersSlot(n: Node<Conn>, slot: Slot, inc: Incoming, reply: Option<Outgoing>) {
    && slot in n.pas && n.pas[slot] in n.at && reply.Some? && 1 <= |reply.value.bytes| <= SIZE
    && var y := n.at[n.pas[slot]];
    && RemoteSeq(y) == Seq64(inc.first, inc.h.sequence)
    && reply.value.to == y.remote && SlotOf(y.remote, inc.h.session) == slot
    && FromSession(n, y.remote, Parse(Received(reply.value.bytes)))
    && Parse(Received(reply.value.bytes)).h.session == inc.h.session
  }

  lemma HandledOk(a: Address, slot: Slot, y: Xfer, inc: Incoming, key: Key, asked: Book)
    requires SlotOf(y.remote, y.rsess) == slot && y.rt == [] && IsRequest(asked, key, a, inc)
          && SlotOf(key.0, key.1) == slot
    requires (y.remote, y.rsess) in asked && asked[(y.remote, y.rsess)].to == a
    ensures var y' := Handle(y, inc).0;
            && SessionOk(a, slot, y', asked) && LocalSeq(y') == LocalSeq(y)
            && RemoteSeq(y') == Seq64(inc.first, inc.h.sequence)
            && (y'.remote, y'.lsess, y'.rsess, y'.rt) == (y.remote, y.lsess, y.rsess, y.rt)
  {
    hide AcceptBuf;
  }

  lemma OpenMove(a: Address, n: Node<Conn>, asked: Book, from: Address, inc: Incoming, t: Conn,
                 low: uint32, high: uint32, id: uint32)
    requires NodeOk(a, n, asked) && IsRequest(asked, (from, inc.h.session), a, inc)
    requires SlotOf(from, inc.h.session) !in n.pas && Unused(n, t, id)
    ensures WellFormed(n)
    ensures var (n', reply) := Receive(n, from, inc, t, low, high, id);
            && NodeOk(a, n', asked) && Grows(n, n', {}) && AnswersSlot(n', SlotOf(from, inc.h.session), inc, reply)
            && reply.value.to == from
  {
    hide Parse, Received, Handle, Accepts, LocalSeq, RemoteSeq, ClientOk, Seq64, TablesOk, SessionOk;
    TablesInside(n);
    var slot := SlotOf(from, inc.h.session);
    var (n', reply) := Receive(n, from, inc, t, low, high, id);
    var x := Xfer(from, id, inc.h.session, [], low, high, 0, 0);
    HandledOk(a, slot, x, inc, (from, inc.h.session), asked);
    RequestHandled(x, inc);
    NewSessionNode(a, n, n', asked, slot, t, id);
  }

  lemma NewSessionNode(a: Address, n: Node<Conn>, n': Node<Conn>, asked: Book, key: Slot, t: Conn, id: uint32)
    requires NodeOk(a, n, asked) && Unused(n, t, id) && key !in n.pas
    requires n'.mim == n.mim[id := t] && n'.pas == n.pas[key := t] && n'.mis == [t] + n.mis
    requires n'.at.Keys == n.at.Keys + {t} && forall u :: u in n.at ==> n'.at[u] == n.at[u]
    requires n'.at[t].lsess == id && Buffers(n'.at[t].rt) && SessionOk(a, key, n'.at[t], asked)
    ensures NodeOk(a, n', asked) && Grows(n, n', {})
  {
    hide LocalSeq, RemoteSeq, ClientOk, TablesOk, SessionOk, Buffers, Grows;
    EntryAdded(n, n', t, id);
    TablesInside(n);
    NewSessionGrows(n, n', key, t, id);
    forall k | k in n'.pas ensures SessionOk(a, k, n'.at[n'.pas[k]], asked) {
      if k != key {
        assert SessionOk(a, k, n.at[n.pas[k]], asked);
      }
    }
    forall u | u in n'.at && u !in n'.pas.Values ensures ClientOk(a, n'.at[u], asked) {
      assert n'.pas[key] == t;
      OldSession(n, key, t, u);
    }
    forall c | (a, c) in asked ensures c in n'.mim && n'.mim[c] !in n'.pas.Values {
      OldSession(n, key, t, n.mim[c]);
    }
  }

  lemma OldSession(n: Node<Conn>, key: Slot, t: Conn, u: Conn)
    requires key !in n.pas
    ensures u in n.pas[key := t].Values <==> u == t || u in n.pas.Values
  {
    var m := n.pas[key := t];
    assert m[key] == t;
    if u in n.pas.Values {
      var k :| k in n.pas && n.pas[k] == u;
      assert m[k] == u;
    }
  }

  lemma NewSessionGrows(n: Node<Conn>, n': Node<Conn>, key: Slot, t: Conn, id: uint32)
    requires Unused(n, t, id) && key !in n.pas
    requires n'.mim == n.mim[id := t] && n'.pas == n.pas[key := t]
    requires n'.at.Keys == n.at.Keys + {t} && forall u :: u in n.at ==> n'.at[u] == n.at[u]
    ensures Grows(n, n', {})
  {
    hide LocalSeq, RemoteSeq;
  }

  lemma AcceptHandled(x: Xfer, inc: Incoming)
    requires Accepts(inc) && Buffers(x.rt)
    ensures Handle(x, inc)
         == (x.(rseq := inc.h.sequence, rsess := inc.first, rseqh := inc.second, rt := WithoutConnects(x.rt)), None)
    ensures RemoteSeq(Handle(x, inc).0) == Seq64(inc.second, inc.h.sequence)
    ensures forall r :: r in WithoutConnects(x.rt) ==> r in x.rt
  {
    hide WithoutConnects;
    WithoutConnectsSubset(x.rt);
  }

  lemma {:induction false} WithoutConnectsSubset(rt: seq<Ref>)
    requires Buffers(rt)
    ensures forall r :: r in WithoutConnects(rt) ==> r in rt
  {
    hide IsConnect;
    if |rt| > 0 {
      WithoutConnectsSubset(rt[..|rt| - 1]);
    }
  }

  lemma AcceptMove(a: Address, n: Node<Conn>, asked: Book, from: Address, inc: Incoming, t: Conn, low: uint32,
                   high: uint32, id: uint32)
    requires NodeOk(a, n, asked) && Accepts(inc) && (a, inc.h.session) in asked
    ensures var (n', reply) := Receive(n, from, inc, t, low, high, id);
            var c := inc.h.session;
            && NodeOk(a, n', asked) && Grows(n, n', {c}) && reply == None
            && c in n'.mim && n'.mim[c] in n'.at && n'.at[n'.mim[c]].rsess == inc.first
            && RemoteSeq(n'.at[n'.mim[c]]) == Seq64(inc.second, inc.h.sequence)
            && n'.pas == n.pas && forall s :: s in n.pas.Values ==> s in n'.at && s in n.at && n'.at[s] == n.at[s]
  {
    hide Handle, LocalSeq, RemoteSeq, Seq64, TablesOk, SessionOk, WithoutConnects, IsControl;
    TablesInside(n);
    var c := inc.h.session;
    var s := n.mim[c];
    var x := n.at[s];
    assert ClientOk(a, x, asked);
    ClientLsess(n, c);
    AcceptHandled(x, inc);
    AcceptKeepsQueue(a, x, inc, asked);
    ClientChanged(a, n, asked, s, Handle(x, inc).0, {c});
  }

  lemma ClientLsess(n: Node<Conn>, c: uint32)
    requires TablesOk(n) && c in n.mim
    ensures n.mim[c] in n.at && n.at[n.mim[c]].lsess == c && WellFormed(n)
  {}

  lemma AcceptKeepsQueue(a: Address, x: Xfer, inc: Incoming, asked: Book)
    requires ClientOk(a, x, asked) && Accepts(inc)
    ensures Buffers(x.rt) && ClientOk(a, Handle(x, inc).0, asked) && Buffers(Handle(x, inc).0.rt)
  {
    hide Handle, WithoutConnects, Parse, Received, IsRequest, PlainBytes, RemoteSeq, Accepts;
    AcceptHandled(x, inc);
  }

  // ---- Every step keeps the invariant ----

  lemma DialsKept(w: World, s: Step)
    requires Inv(w) && Enabled(w, s) && s.Dials?
    ensures Inv(Do(w, s))
  {
    hide NodeOk, Grows, Sendable, AnsweredOk, Dial, Request, ToNet, Unused, Extends, LocalSeq;
    DialMove(s.a, w.nodes[s.a], w.asked, s.to, s.t, s.x, s.id, s.ok);
    Moved(w, Do(w, s), s.a, Dial(w.nodes[s.a], s.to, s.t, s.x, s.id, s.ok), [Request(s.to, s.x, s.id)], {});
  }

  lemma ExtendsSame(asked: Book, a: Address)
    ensures Extends(asked, asked, a)
  {}

  lemma ClientKnown(a: Address, n: Node<Conn>, asked: Book, c: uint32)
    requires NodeOk(a, n, asked) && (a, c) in asked
    ensures c in n.mim && n.mim[c] in n.at && n.mim[c] !in n.pas.Values
  {
    hide ClientOk, SessionOk;
  }

  lemma UserSendsKept(w: World, s: Step)
    requires Inv(w) && Enabled(w, s) && s.UserSends?
    ensures Inv(Do(w, s))
  {
    hide NodeOk, Grows, Sendable, AnsweredOk, Enqueue, UserOut, PlainPacket, ToNet, Extends;
    var n := w.nodes[s.a];
    ClientKnown(s.a, n, w.asked, s.id);
    var t := n.mim[s.id];
    UserMove(s.a, n, w.asked, t, s.b, s.ok);
    ExtendsSame(w.asked, s.a);
    Moved(w, Do(w, s), s.a, n.(at := n.at[t := Enqueue(n.at[t], s.b, s.ok)]), UserOut(n.at[t], s.b), {});
  }

  lemma TicksKept(w: World, s: Step)
    requires Inv(w) && Enabled(w, s) && s.Ticks?
    ensures Inv(Do(w, s))
  {
    hide NodeOk, Grows, Sendable, AnsweredOk, TickAll, TickAllSends, ToNet, Extends, Sized;
    var n := w.nodes[s.a];
    TickMove(s.a, n, w.asked, s.answers);
    ExtendsSame(w.asked, s.a);
    TickOuts(s.a, n, w.asked, n.mis);
    forall o | o in TickAllSends(n.mis, n.at) ensures Sendable(s.a, TickAll(n, s.answers), w.asked, o) {
      SendableKept(s.a, n, TickAll(n, s.answers), w.asked, w.asked, s.a, o, {});
    }
    Moved(w, Do(w, s), s.a, TickAll(n, s.answers), TickAllSends(n.mis, n.at), {});
  }

  function Outcome(w: World, s: Step): (r: (Node<Conn>, Option<Outgoing>))
    requires Enabled(w, s) && s.Delivers?
  {
    Receive(w.nodes[s.d.to], s.d.from, Seen(s.d), s.t, s.low, s.high, s.id)
  }

  // A delivery that teaches no client anything.
  lemma Delivered(w: World, s: Step, n': Node<Conn>, reply: Option<Outgoing>)
    requires Inv(w) && Enabled(w, s) && s.Delivers? && (n', reply) == Outcome(w, s)
    requires NodeOk(s.d.to, n', w.asked) && Grows(w.nodes[s.d.to], n', {})
    requires !Accepts(Seen(s.d))
    requires reply.Some? ==> Sendable(s.d.to, n', w.asked, reply.value)
    ensures Inv(Do(w, s)) && Do(w, s).nodes == w.nodes[s.d.to := n']
    ensures reply.Some? ==> Datagram(s.d.to, reply.value.to, reply.value.bytes) in Do(w, s).net
  {
    hide NodeOk, Grows, Sendable, AnsweredOk, Receive, ToNet, Extends, Parse, Received, Inv, WellFormed, Opens,
         Unused, Accepts;
    ExtendsSame(w.asked, s.d.to);
    Moved(w, Do(w, s), s.d.to, n', Optional(reply), {});
    if reply.Some? {
      InNet(s.d.to, reply.value);
    }
  }

  lemma DataDelivered(w: World, s: Step)
    requires Inv(w) && Enabled(w, s) && s.Delivers? && !IsControl(Seen(s.d).h.flags)
    ensures Inv(Do(w, s))
  {
    hide NodeOk, Grows, Sendable, AnsweredOk, Receive, ToNet, Extends, Parse, Received;
    var n := w.nodes[s.d.to];
    PlainMove(n, s.d.from, Seen(s.d), s.t, s.low, s.high, s.id);
    GrowsSame(n);
    Delivered(w, s, n, None);
  }

  // The answer to a request on its way back to the client that has the slot.
  ghost predicate IsAnswer(w: World, d: Datagram, e: Datagram)
    requires |d.bytes| <= SIZE
  {
    var slot := SlotOf(d.from, Seen(d).h.session);
    && e in w.net && e.from == d.to && d.to in w.nodes && 1 <= |e.bytes| <= SIZE
    && FromSession(w.nodes[d.to], e.to, Seen(e)) && Seen(e).h.session == Seen(d).h.session
    && slot in w.nodes[d.to].pas && w.nodes[d.to].pas[slot] in w.nodes[d.to].at
    && var y := w.nodes[d.to].at[w.nodes[d.to].pas[slot]];
    && RemoteSeq(y) == Seq64(Seen(d).first, Seen(d).h.sequence) && y.remote == e.to
    && SlotOf(e.to, Seen(d).h.session) == slot
  }

  // `e` is on its way after the delivery, and goes to the sender of a first request.
  ghost predicate AnsweredBy(w: World, s: Step, e: Datagram)
    requires s.Delivers? && Enabled(w, s)
  {
    && (Opens(w.nodes[s.d.to], s.d.from, Seen(s.d)) ==> e.to == s.d.from)
    && IsAnswer(Do(w, s), s.d, e)
  }

  lemma RequestDelivered(w: World, s: Step) returns (e: Datagram)
    requires s.Delivers? && Enabled(w, s) && Inv(w)
    requires IsRequest(w.asked, (s.d.from, Seen(s.d).h.session), s.d.to, Seen(s.d))
    ensures AnsweredBy(w, s, e) && Inv(Do(w, s))
  {
    hide NodeOk, Grows, AnsweredOk, Receive, Parse, Received, FromSession, Seq64, WellFormed, Do, Inv, IsControl,
         RemoteSeq, SlotOf, Opens, Findable, IsRequest;
    var (n', reply) := Outcome(w, s);
    RequestNode(w, s);
    IsRequestRequests(w.asked, (s.d.from, Seen(s.d).h.session), s.d.to, Seen(s.d));
    RequestIsNoAccept(Seen(s.d));
    Delivered(w, s, n', reply);
    e := Datagram(s.d.to, reply.value.to, reply.value.bytes);
    assert Seen(e) == Parse(Received(reply.value.bytes));
  }

  lemma RequestNode(w: World, s: Step)
    requires Inv(w) && Enabled(w, s) && s.Delivers?
    requires IsRequest(w.asked, (s.d.from, Seen(s.d).h.session), s.d.to, Seen(s.d))
    ensures var (n', reply) := Outcome(w, s);
            && NodeOk(s.d.to, n', w.asked) && Grows(w.nodes[s.d.to], n', {})
            && AnswersSlot(n', SlotOf(s.d.from, Seen(s.d).h.session), Seen(s.d), reply)
            && (Opens(w.nodes[s.d.to], s.d.from, Seen(s.d)) ==> reply.value.to == s.d.from)
  {
    hide NodeOk, Grows, AnsweredOk, Receive, Parse, Received, AnswersSlot, Seq64, WellFormed, Unused, IsRequest,
         BooksOk, NetOk, SlotOf, Findable;
    var n, d, inc := w.nodes[s.d.to], s.d, Seen(s.d);
    assert Requests(inc) by { IsRequestRequests(w.asked, (d.from, inc.h.session), d.to, inc); }
    if Opens(n, d.from, inc) {
      OpenMove(d.to, n, w.asked, d.from, inc, s.t, s.low, s.high, s.id);
    } else {
      RepeatMove(d.to, n, w.asked, d.from, inc, s.t, s.low, s.high, s.id);
    }
  }

  lemma IsRequestRequests(asked: Book, key: Key, to: Address, inc: Incoming)
    requires IsRequest(asked, key, to, inc)
    ensures Requests(inc)
  {}

  lemma RequestIsNoAccept(inc: Incoming)
    requires Requests(inc)
    ensures !Accepts(inc)
  {}

  lemma InNet(a: Address, o: Outgoing)
    ensures Optional(Some(o)) == [o] && Datagram(a, o.to, o.bytes) in ToNet(a, [o])
  {
    var s := seq(1, k requires 0 <= k < 1 => Datagram(a, [o][k].to, [o][k].bytes));
    assert s[0] == Datagram(a, o.to, o.bytes) && s[0] in s;
  }

  lemma AcceptNode(w: World, s: Step)
    requires Inv(w) && Enabled(w, s) && s.Delivers? && s.d.from in w.nodes
    requires FromSession(w.nodes[s.d.from], s.d.to, Seen(s.d))
    ensures var (n', reply) := Outcome(w, s);
            var key := (s.d.to, Seen(s.d).h.session);
            && NodeOk(s.d.to, n', w.asked) && Grows(w.nodes[s.d.to], n', {key.1}) && reply == None
            && key in w.asked && w.asked[key].to == s.d.from && key.1 in w.nodes[s.d.to].mim && Accepts(Seen(s.d))
            && AnsweredOk(n', After(w, s.d.to, n', s.d.from), key)
  {
    hide NodeOk, Grows, Receive, Parse, Received, ClientOk, Seq64, LocalSeq, RemoteSeq, WellFormed, BooksOk, NetOk,
         Unused, Accepts;
    var n, d, inc := w.nodes[s.d.to], s.d, Seen(s.d);
    var key := (d.to, inc.h.session);
    AnswerKnown(d.from, w.nodes[d.from], w.asked, d.to, inc);
    AcceptMove(d.to, n, w.asked, d.from, inc, s.t, s.low, s.high, s.id);
    ClientKnown(d.to, n, w.asked, key.1);
  }

  lemma AnswerKnown(b: Address, nb: Node<Conn>, asked: Book, to: Address, inc: Incoming)
    requires NodeOk(b, nb, asked) && FromSession(nb, to, inc)
    ensures Accepts(inc) && (to, inc.h.session) in asked && asked[(to, inc.h.session)].to == b
  {
    hide ClientOk, TablesOk, Accepts;
    var slot := SlotOf(to, inc.h.session);
    assert SessionOk(b, slot, nb.at[nb.pas[slot]], asked);
  }

  lemma AcceptDelivered(w: World, s: Step)
    requires Inv(w) && Enabled(w, s) && s.Delivers? && s.d.from in w.nodes
    requires FromSession(w.nodes[s.d.from], s.d.to, Seen(s.d))
    ensures Inv(Do(w, s)) && (s.d.to, Seen(s.d).h.session) in Do(w, s).answered
  {
    hide NodeOk, Grows, AnsweredOk, FromSession, Sendable, Receive, ToNet, Extends, Parse, Received, WellFormed,
         Opens, Unused, Accepts;
    var (n', reply) := Outcome(w, s);
    AcceptNode(w, s);
    ExtendsSame(w.asked, s.d.to);
    Moved(w, Do(w, s), s.d.to, n', [], {Seen(s.d).h.session});
  }

  lemma InvKept(w: World, s: Step)
    requires Inv(w) && Enabled(w, s)
    ensures Inv(Do(w, s))
  {
    hide NodeOk, Sendable, AnsweredOk, Parse, Received;
    match s
    case Dials(_, _, _, _, _, _) => DialsKept(w, s);
    case UserSends(_, _, _, _) => UserSendsKept(w, s);
    case Ticks(_, _) => TicksKept(w, s);
    case Delivers(d, _, _, _, _) => DeliversKept(w, s);
    case Duplicates(d) =>
    case Loses(d) =>
  }

  lemma DeliversKept(w: World, s: Step)
    requires Inv(w) && Enabled(w, s) && s.Delivers?
    ensures Inv(Do(w, s))
  {
    hide NodeOk, AnsweredOk, Parse, Received, IsRequest, FromSession, Do, Enabled;
    assert s.d in w.net by { EnabledNet(w, s); }
    if IsRequest(w.asked, (s.d.from, Seen(s.d).h.session), s.d.to, Seen(s.d)) {
      var e := RequestDelivered(w, s);
    } else if FromSession(w.nodes[s.d.from], s.d.to, Seen(s.d)) {
      AcceptDelivered(w, s);
    } else {
      DataDelivered(w, s);
    }
  }

  lemma EnabledNet(w: World, s: Step)
    requires Enabled(w, s) && s.Delivers?
    ensures s.d in w.net
  {}
}
