/** What every run of the handshake gives: one session for a client, what the two ends know of each
    other, and exactly when they agree on everything. */
module Agreement {
  import opened MachineTypes
  import opened PacketSpec
  import Frames
  import opened TransferSpec
  import opened TransferQueue
  import opened AddressOrder
  import opened SystemSpec
  import opened HandshakeSpec
  import opened Handshake

  lemma {:induction false} RunInv(ws: seq<World>, steps: seq<Step>, k: nat)
    requires IsRun(ws, steps) && k <= |steps|
    ensures Inv(ws[k])
  {
    hide Do, Enabled, Inv;
    if k == 0 {
      StartInv(ws[0]);
    } else {
      RunInv(ws, steps, k - 1);
      assert Enabled(ws[k - 1], steps[k - 1]) && ws[k - 1 + 1] == Do(ws[k - 1], steps[k - 1]);
      InvKept(ws[k - 1], steps[k - 1]);
    }
  }

  lemma StartInv(w: World)
    requires Start(w)
    ensures Inv(w)
  {}

  lemma ReachedInv(w: World)
    requires Reached(w)
    ensures Inv(w)
  {
    hide Do, Enabled, Inv;
    var ws, steps :| IsRun(ws, steps) && ws[|steps|] == w;
    RunInv(ws, steps, |steps|);
  }

  /** In every reachable state, a client's request has led to at most one session anywhere. */
  lemma OneSession(w: World, key: Key, b: Address, s: Conn)
    requires Reached(w) && SessionFor(w, b, s, key)
    ensures key in w.asked && w.asked[key].to == b
    ensures SlotOf(key.0, key.1) in w.nodes[b].pas && w.nodes[b].pas[SlotOf(key.0, key.1)] == s
  {
    ReachedInv(w);
    SessionIs(w, key, b, s);
  }

  lemma SessionIs(w: World, key: Key, b: Address, s: Conn)
    requires Inv(w) && SessionFor(w, b, s, key)
    ensures key in w.asked && w.asked[key].to == b
    ensures SlotOf(key.0, key.1) in w.nodes[b].pas && w.nodes[b].pas[SlotOf(key.0, key.1)] == s
  {
    hide BooksOk, NetOk, ClientOk, TablesOk, RemoteSeq, Heard, ComparedPart;
    var n := w.nodes[b];
    var slot :| slot in n.pas && n.pas[slot] == s;
    assert SessionOk(b, slot, n.at[s], w.asked);
  }

  lemma SessionKnown(b: Address, n: Node<Conn>, asked: Book, slot: Slot)
    requires NodeOk(b, n, asked) && slot in n.pas
    ensures n.pas[slot] in n.at && SessionOk(b, slot, n.at[n.pas[slot]], asked)
  {
    hide ClientOk, SessionOk;
  }

  lemma ClientIs(a: Address, n: Node<Conn>, asked: Book, c: uint32)
    requires NodeOk(a, n, asked) && (a, c) in asked
    ensures c in n.mim && n.mim[c] in n.at && n.at[n.mim[c]].lsess == c && n.at[n.mim[c]].remote == asked[(a, c)].to
  {
    hide QueueOk, SessionOk;
    ClientKnown(a, n, asked, c);
    assert ClientOk(a, n.at[n.mim[c]], asked);
  }

  /** Whatever the network did: a client that processed an answer, and the one session made for it,
      know each other's ids, and the client expects the number that the session sends with. */
  lemma Links(w: World, key: Key)
    requires Reached(w) && key in w.answered
    ensures exists s :: Linked(w, key, s)
  {
    ReachedInv(w);
    var s := InvLinks(w, key);
  }

  lemma InvLinks(w: World, key: Key) returns (s: Conn)
    requires Inv(w) && key in w.answered
    ensures Linked(w, key, s)
  {
    hide NetOk, LocalSeq, RemoteSeq, NodeOk, Heard, ComparedPart;
    var (a, c) := key;
    var b := w.asked[key].to;
    var na, nb := w.nodes[a], w.nodes[b];
    ClientIs(a, na, w.asked, c);
    var slot := SlotOf(a, c);
    s := nb.pas[slot];
    SessionKnown(b, nb, w.asked, slot);
    assert SessionFor(w, b, s, key);
    forall b', r | SessionFor(w, b', r, key) ensures b' == b && r == s {
      SessionIs(w, key, b', r);
    }
  }

  /** And the session expects the number the client sent, unless another client's request reached it
      that it cannot tell from this one's and that had another number. */
  lemma Agrees(w: World, key: Key)
    requires Reached(w) && key in w.answered
    ensures Undisturbed(w.asked, key) ==> exists s :: Agreed(w, key, s)
  {
    ReachedInv(w);
    if Undisturbed(w.asked, key) {
      var s := InvAgrees(w, key);
    }
  }

  lemma InvAgrees(w: World, key: Key) returns (s: Conn)
    requires Inv(w) && key in w.answered && Undisturbed(w.asked, key)
    ensures Agreed(w, key, s)
  {
    hide NetOk, LocalSeq, RemoteSeq, NodeOk, ComparedPart;
    s := InvLinks(w, key);
    var b, slot := w.asked[key].to, SlotOf(key.0, key.1);
    SessionIs(w, key, b, s);
    SessionKnown(b, w.nodes[b], w.asked, slot);
    var y := w.nodes[b].at[s];
    var k :| k in w.asked && SlotOf(k.0, k.1) == slot && w.asked[k].to == b && w.asked[k].number == RemoteSeq(y);
    assert Shares(w.asked, key, k);
  }

  /** Of clients whose requests a system cannot tell apart, at most one is ever answered. */
  lemma OneAnswered(w: World, key: Key, other: Key)
    requires Reached(w) && key in w.answered && other in w.answered
    requires key in w.asked && other in w.asked && Shares(w.asked, key, other)
    ensures key == other
  {
    hide Inv, ComparedPart;
    ReachedInv(w);
    var s := InvLinks(w, key);
    var r := InvLinks(w, other);
    var b := w.asked[key].to;
    SessionIs(w, key, b, s);
    SessionIs(w, other, b, r);
  }

  /** The conditions of a step that speak of the tables always hold: whatever is on the network can
      be delivered, every system can tick, and a client is always found in its table. */
  lemma NeverStuck(w: World)
    requires Reached(w)
    ensures && (forall a :: a in w.nodes ==> Ready(w.nodes[a]))
            && (forall d :: d in w.net ==> 1 <= |d.bytes| <= SIZE)
            && (forall key :: key in w.asked ==> Client(w, key).Some?)
    ensures forall d :: d in w.net && d.to in w.nodes && d.from.family != IPV6 ==>
              Findable(w.nodes[d.to].pas.Keys, d.from)
  {
    hide Reached, NodeOk, BooksOk, TablesOk, Ready, IsRequest, FromSession, Findable;
    ReachedInv(w);
    forall a | a in w.nodes ensures Ready(w.nodes[a]) {
      QueueSized(a, w.nodes[a], w.asked);
    }
    forall key | key in w.asked ensures Client(w, key).Some? {
      AskedHome(w, key);
      ClientKnown(key.0, w.nodes[key.0], w.asked, key.1);
    }
    forall d | d in w.net && d.to in w.nodes && d.from.family != IPV6 ensures Findable(w.nodes[d.to].pas.Keys, d.from) {
      Ipv4Findable(d.to, w.nodes[d.to], w.asked, d.from);
    }
  }

  lemma Ipv4Findable(b: Address, n: Node<Conn>, asked: Book, from: Address)
    requires NodeOk(b, n, asked) && from.family != IPV6
    ensures Findable(n.pas.Keys, from)
  {
    hide ClientOk, TablesOk, Crossed, ComparedPart, Heard;
    TablesInside(n);
    forall slot | slot in n.pas ensures !Crossed(slot.0, ComparedPart(from)) {
      var y := n.at[n.pas[slot]];
      assert SessionOk(b, slot, y, asked);
      NotCrossed(from, y.remote);
      CrossedBoth(slot.0, ComparedPart(from));
    }
  }

  lemma CrossedBoth(c: Compared, d: Compared)
    ensures Crossed(c, d) <==> Crossed(d, c)
  {
    hide Less;
  }

  lemma AskedHome(w: World, key: Key)
    requires BooksOk(w) && key in w.asked
    ensures key.0 in w.nodes
  {}

  /** What is on the network in a reachable state: data only between a system and one it called,
      requests as their clients made them, and answers with the ids and the number of the session that
      gave them. */
  lemma Traffic(w: World, d: Datagram)
    requires Reached(w) && d in w.net
    ensures d.from in w.nodes && 1 <= |d.bytes| <= SIZE
    ensures || (!IsControl(Seen(d).h.flags) && Calls(w.asked, d.from, d.to))
            || IsRequest(w.asked, (d.from, Seen(d).h.session), d.to, Seen(d))
            || FromSession(w.nodes[d.from], d.to, Seen(d))
  {
    hide Parse, Received, NodeOk, BooksOk, Reached, IsControl, Calls, IsRequest, FromSession;
    ReachedInv(w);
    assert Handshake.Sendable(d.from, w.nodes[d.from], w.asked, Outgoing(d.to, d.bytes));
  }

  /** A user's packet goes out at once, and again whenever its wait ends: every entry of a client's
      queue that is due at a tick is on the network after it. */
  lemma DataSent(w: World, s: Step)
    requires Enabled(w, s) && s.UserSends? && Complete(s.b).pksz >= 1
    ensures var x, c := w.nodes[s.a].at[w.nodes[s.a].mim[s.id]], Complete(s.b);
            Datagram(s.a, x.remote, c.data[..c.pksz]) in Do(w, s).net
  {
    hide Complete, Enqueue, ToNet, PlainPacket;
    var x, c := w.nodes[s.a].at[w.nodes[s.a].mim[s.id]], Complete(s.b);
    var o := Outgoing(x.remote, c.data[..c.pksz]);
    InNet(s.a, o);
    assert UserOut(x, s.b) == [o];
  }

  lemma ResentOnNet(w: World, s: Step, k: nat, r: Ref)
    requires Enabled(w, s) && s.Ticks? && k < |w.nodes[s.a].mis|
    requires var n := w.nodes[s.a]; r in n.at[n.mis[k]].rt && r.wait == 1 && r.attempt <= 5
    ensures var n := w.nodes[s.a];
            r.pksz <= |r.data| && Datagram(s.a, n.at[n.mis[k]].remote, r.data[..r.pksz]) in Do(w, s).net
  {
    hide TickAll, ToNet, TickSends;
    var n := w.nodes[s.a];
    var x := n.at[n.mis[k]];
    var o := Outgoing(x.remote, r.data[..r.pksz]);
    TickSendsIff(x.rt);
    AllSent(n.mis, n.at, k, r.data[..r.pksz]);
    SomeInNet(s.a, TickAllSends(n.mis, n.at), o);
  }

  lemma {:induction false} AllSent(mis: seq<Conn>, at: map<Conn, Xfer>, k: nat, p: seq<uint8>)
    requires forall j :: 0 <= j < |mis| ==> mis[j] in at && Sized(at[mis[j]].rt)
    requires k < |mis| && p in TickSends(at[mis[k]].rt)
    ensures Outgoing(at[mis[k]].remote, p) in TickAllSends(mis, at)
  {
    hide TickSends, Sized;
    var n := |mis| - 1;
    if k < n {
      AllSent(mis[..n], at, k, p);
    } else {
      var ps := TickSends(at[mis[n]].rt);
      var j :| 0 <= j < |ps| && ps[j] == p;
      assert Addressed(at[mis[n]].remote, ps)[j] == Outgoing(at[mis[n]].remote, p);
    }
  }

  lemma SomeInNet(a: Address, out: seq<Outgoing>, o: Outgoing)
    requires o in out
    ensures Datagram(a, o.to, o.bytes) in ToNet(a, out)
  {
    var k :| 0 <= k < |out| && out[k] == o;
    var ds := seq(|out|, k requires 0 <= k < |out| => Datagram(a, out[k].to, out[k].bytes));
    assert ds[k] == Datagram(a, o.to, o.bytes) && ds[k] in ds;
  }

  // ---- A handshake can always be completed ----

  ghost predicate ThenAgree(w: World, s: Step, key: Key) {
    Enabled(w, s) && key in Do(w, s).answered && exists r :: Agreed(Do(w, s), key, r)
  }

  predicate AnswerOnNet(w: World, d: Datagram, e: Datagram) { e in w.net && e.from == d.to && e.to == d.from }

  /** Two deliveries complete a handshake: from any reachable state, once the request of a client
      that shares its slot with no other arrives, an answer is on the network whose arrival the
      client takes, and the two ends then agree. */
  lemma Completes(w0: World, s: Step)
    requires Reached(w0) && s.Delivers?
    ensures Enabled(w0, s) && Requests(Seen(s.d)) && Alone(w0.asked, (s.d.from, Seen(s.d).h.session)) ==>
              exists e :: AnswerOnNet(Do(w0, s), s.d, e)
                && forall t, low, high, id ::
                     ThenAgree(Do(w0, s), Delivers(e, t, low, high, id), (s.d.from, Seen(s.d).h.session))
  {
    hide Reached, Do, Seen, Requests, ThenAgree, AnswerOnNet, Opens, Unused, WellFormed, Findable, Alone;
    if Enabled(w0, s) && Requests(Seen(s.d)) && Alone(w0.asked, (s.d.from, Seen(s.d).h.session)) {
      ReachedInv(w0);
      var e := RequestAnswered(w0, s);
      forall t, low, high, id
        ensures ThenAgree(Do(w0, s), Delivers(e, t, low, high, id), (s.d.from, Seen(s.d).h.session))
      {
        AnswerTaken(w0, s, e, Delivers(e, t, low, high, id));
      }
    }
  }

  lemma RequestAnswered(w0: World, s: Step) returns (e: Datagram)
    requires Inv(w0) && s.Delivers? && Enabled(w0, s) && Requests(Seen(s.d))
    requires Alone(w0.asked, (s.d.from, Seen(s.d).h.session))
    ensures Inv(Do(w0, s)) && IsAnswer(Do(w0, s), s.d, e) && AnswerOnNet(Do(w0, s), s.d, e)
         && s.d.from in Do(w0, s).nodes
  {
    hide Do, NodeOk, FromSession, Seen, Enabled, Receive, BooksOk, SlotOf, RemoteSeq;
    EnabledNet(w0, s);
    RequestOnly(w0, s.d);
    e := RequestDelivered(w0, s);
    DeliveryKeeps(w0, s);
    AnswerKnown(s.d.to, Do(w0, s).nodes[s.d.to], w0.asked, e.to, Seen(e));
    assert Shares(w0.asked, (s.d.from, Seen(s.d).h.session), (e.to, Seen(s.d).h.session));
  }

  lemma AnswerTaken(w0: World, s: Step, e: Datagram, next: Step)
    requires Enabled(w0, s) && s.Delivers? && Inv(Do(w0, s)) && IsAnswer(Do(w0, s), s.d, e)
          && AnswerOnNet(Do(w0, s), s.d, e)
    requires s.d.from in Do(w0, s).nodes && Alone(w0.asked, (s.d.from, Seen(s.d).h.session))
    requires next.Delivers? && next.d == e
    ensures ThenAgree(Do(w0, s), next, (s.d.from, Seen(s.d).h.session))
  {
    hide Do, Inv, Seen, FromSession, Agreed, SlotOf, RemoteSeq, Opens, Findable, Receive;
    var w, key := Do(w0, s), (s.d.from, Seen(s.d).h.session);
    DeliveryKeeps(w0, s);
    AnswerEnabled(w, next);
    AcceptDelivered(w, next);
    DeliveryKeeps(w, next);
    var r := InvAgrees(Do(w, next), key);
  }

  lemma AnswerEnabled(w: World, s: Step)
    requires Inv(w) && s.Delivers? && s.d in w.net && s.d.to in w.nodes && s.d.from in w.nodes
          && 1 <= |s.d.bytes| <= SIZE
    requires FromSession(w.nodes[s.d.from], s.d.to, Seen(s.d))
    ensures Enabled(w, s)
  {
    hide Seen, NodeOk, WellFormed, BooksOk, NetOk;
    NodeWellFormed(s.d.to, w.nodes[s.d.to], w.asked);
    AcceptNotRequest(Seen(s.d));
  }

  // What a delivery leaves alone.
  lemma DeliveryKeeps(w: World, s: Step)
    requires Enabled(w, s) && s.Delivers?
    ensures Do(w, s).nodes.Keys == w.nodes.Keys && Do(w, s).asked == w.asked && w.answered <= Do(w, s).answered
    ensures forall d :: d in w.net && d != s.d ==> d in Do(w, s).net
  {
    hide Receive, ToNet, WellFormed, Opens, Unused, Findable, Requests, Seen, Accepts;
  }

  lemma RequestOnly(w: World, d: Datagram)
    requires Inv(w) && d in w.net && |d.bytes| <= SIZE && Requests(Seen(d))
    ensures IsRequest(w.asked, (d.from, Seen(d).h.session), d.to, Seen(d)) && d.from in w.nodes
  {
    hide Parse, Received, NodeOk, BooksOk;
    assert Handshake.Sendable(d.from, w.nodes[d.from], w.asked, Outgoing(d.to, d.bytes));
  }

  lemma NodeWellFormed(a: Address, n: Node<Conn>, asked: Book)
    requires NodeOk(a, n, asked)
    ensures WellFormed(n)
  {}

  lemma AcceptNotRequest(inc: Incoming)
    requires Accepts(inc)
    ensures !Requests(inc)
  {}

  // ---- When agreement fails ----

  // Two clients call the same system.
  function TwoRequests(k1: Key, k2: Key, b: Address, n1: uint64, n2: uint64): Book {
    map[k1 := Asked(b, n1), k2 := Asked(b, n2)]
  }

  lemma ReachedStep(w: World, s: Step)
    requires Reached(w) && Enabled(w, s)
    ensures Reached(Do(w, s))
  {
    hide Do, Enabled;
    var ws, steps :| IsRun(ws, steps) && ws[|steps|] == w;
    var ws', steps' := ws + [Do(w, s)], steps + [s];
    assert IsRun(ws', steps') && ws'[|steps'|] == Do(w, s);
  }

  lemma ReachedStart(w: World)
    requires Start(w)
    ensures Reached(w)
  {
    var steps: seq<Step> := [];
    assert IsRun([w], steps) && [w][|steps|] == w;
  }

  function Dialler(n: uint64): Xfer {
    Xfer(Address(0, [], 0), 0, 0, [], n % TWO_TO_THE_32, n / TWO_TO_THE_32, 0, 0)
  }

  lemma DiallerCounts(n: uint64)
    ensures LocalSeq(Dialler(n)) == n && Dialler(n).rt == []
  {}

  // What is known of a world in which clients have dialled and nothing was delivered.
  ghost predicate Dialled(w: World, b: Address, id: uint32, used: set<Conn>) {
    && Reached(w) && b in w.nodes && w.nodes[b].pas == map[]
    && w.nodes[b].mim.Keys <= {id} && w.nodes[b].at.Keys <= used && w.answered == {}
  }

  lemma DialOnce(w: World, key: Key, b: Address, n: uint64, t: Conn, used: set<Conn>) returns (w': World, d: Datagram)
    requires Dialled(w, b, key.1, used) && key.0 in w.nodes && Unused(w.nodes[key.0], t, key.1)
    ensures Dialled(w', b, key.1, used + {t}) && w'.asked == w.asked[key := Asked(b, n)]
    ensures w'.nodes.Keys == w.nodes.Keys && forall a :: a in w.nodes && a != key.0 ==> w'.nodes[a] == w.nodes[a]
    ensures d.from == key.0 && d.to == b && d in w'.net && forall e :: e in w.net ==> e in w'.net
    ensures 1 <= |d.bytes| <= SIZE && Requests(Seen(d)) && Seen(d).h.session == key.1
    ensures Seq64(Seen(d).first, Seen(d).h.sequence) == n
  {
    hide Reached, Enqueue, ConnectBuf, Parse, Received, Frames.Frame, ConnectMessage, Requests, LocalSeq;
    DiallerCounts(n);
    var x := Dialler(n);
    var s := Dials(key.0, b, t, x, key.1, true);
    ReachedStep(w, s);
    w' := Do(w, s);
    var o := Request(b, x, key.1);
    d := Datagram(key.0, b, o.bytes);
    InNet(key.0, o);
    RequestSeen(key.1, n);
  }

  // Both requests are on the network and nothing was delivered.
  lemma BothDialled(k1: Key, k2: Key, b: Address, n1: uint64, n2: uint64) returns (w: World, d1: Datagram, d2: Datagram)
    requires k1.0 != k2.0 && k1.1 == k2.1
    ensures Dialled(w, b, k1.1, {0, 1}) && w.asked == TwoRequests(k1, k2, b, n1, n2)
    ensures d1 in w.net && d1.from == k1.0 && d1.to == b && d2 in w.net && d2.from == k2.0 && d2.to == b
    ensures 1 <= |d1.bytes| <= SIZE && Requests(Seen(d1)) && Seen(d1).h.session == k1.1
    ensures 1 <= |d2.bytes| <= SIZE && Requests(Seen(d2)) && Seen(d2).h.session == k2.1
    ensures Seq64(Seen(d2).first, Seen(d2).h.sequence) == n2
  {
    hide Reached, Seen, Requests, Seq64;
    var empty: Node<Conn> := Node(map[], map[], [], map[]);
    var w0 := World(map[k1.0 := empty, k2.0 := empty, b := empty], multiset{}, map[], {});
    ReachedStart(w0);
    var w1;
    w1, d1 := DialOnce(w0, k1, b, n1, 0, {});
    w, d2 := DialOnce(w1, k2, b, n2, 1, {0});
  }

  // With requests for one slot only, a lookup of their clients is always defined.
  lemma OneSlotFindable(w: World, b: Address, k1: Key, k2: Key, n1: uint64, n2: uint64, from: Address)
    requires Inv(w) && b in w.nodes && w.asked == TwoRequests(k1, k2, b, n1, n2)
    requires SlotOf(k1.0, k1.1) == SlotOf(k2.0, k2.1) && ComparedPart(from) == SlotOf(k1.0, k1.1).0
    ensures Findable(w.nodes[b].pas.Keys, from)
  {
    hide BooksOk, NetOk, ClientOk, TablesOk, ComparedPart, RemoteSeq, Heard;
    var n := w.nodes[b];
    TablesInside(n);
    forall slot | slot in n.pas ensures !Crossed(slot.0, ComparedPart(from)) {
      assert SessionOk(b, slot, n.at[n.pas[slot]], w.asked);
      assert slot == SlotOf(k1.0, k1.1);
    }
  }

  /** Of two clients that a system cannot tell apart, the first is answered and then the second
      request arrives: now the session expects the second client's number. */
  lemma Disagreement(k1: Key, k2: Key, b: Address, n1: uint64, n2: uint64) returns (w: World)
    requires k1 != k2 && SlotOf(k1.0, k1.1) == SlotOf(k2.0, k2.1) && n1 != n2
    ensures Reached(w) && w.asked == TwoRequests(k1, k2, b, n1, n2) && k1 in w.answered
    ensures forall s :: !Agreed(w, k1, s)
  {
    hide Reached, Inv, Do, Enabled, Seen, FromSession, ComparedPart, RemoteSeq, Requests, Seq64, Agreed;
    var w2, d1, d2 := BothDialled(k1, k2, b, n1, n2);
    ReachedInv(w2);
    var s3 := Delivers(d1, 2, 0, 0, (k1.1 + 1) % TWO_TO_THE_32);
    FirstEnabled(w2, s3, k1.1);
    RequestOnly(w2, d1);
    var e := RequestDelivered(w2, s3);
    DeliveryKeeps(w2, s3);
    ReachedStep(w2, s3);
    var w3 := Do(w2, s3);
    var s4 := Delivers(e, 0, 0, 0, 0);
    AnswerEnabled(w3, s4);
    AcceptDelivered(w3, s4);
    DeliveryKeeps(w3, s4);
    ReachedStep(w3, s4);
    var w4 := Do(w3, s4);
    var s5 := Delivers(d2, 3, 0, 0, 0);
    LaterEnabled(w4, s5, k1, k2, b, n1, n2);
    RequestOnly(w4, d2);
    var e' := RequestDelivered(w4, s5);
    DeliveryKeeps(w4, s5);
    ReachedStep(w4, s5);
    w := Do(w4, s5);
    forall s ensures !Agreed(w, k1, s) {
      OverwrittenDisagrees(w, d2, e', k1, k2, b, n1, n2, s);
    }
  }

  lemma FirstEnabled(w: World, s: Step, id: uint32)
    requires s.Delivers? && Dialled(w, s.d.to, id, {0, 1}) && s.d in w.net && 1 <= |s.d.bytes| <= SIZE && Inv(w)
    requires s.t == 2 && s.id == (id + 1) % TWO_TO_THE_32 && Requests(Seen(s.d))
    ensures Enabled(w, s) && Opens(w.nodes[s.d.to], s.d.from, Seen(s.d))
  {
    hide Seen, NodeOk, WellFormed, BooksOk, NetOk, Reached, ComparedPart, Requests;
    NodeWellFormed(s.d.to, w.nodes[s.d.to], w.asked);
  }

  // Once the first client was answered, its slot is taken, and the second request finds it.
  lemma LaterEnabled(w: World, s: Step, k1: Key, k2: Key, b: Address, n1: uint64, n2: uint64)
    requires Inv(w) && w.asked == TwoRequests(k1, k2, b, n1, n2) && k1 in w.answered
    requires SlotOf(k1.0, k1.1) == SlotOf(k2.0, k2.1)
    requires s.Delivers? && s.d in w.net && s.d.to == b && s.d.from == k2.0 && 1 <= |s.d.bytes| <= SIZE
    requires Seen(s.d).h.session == k2.1
    ensures Enabled(w, s)
  {
    hide Seen, NodeOk, WellFormed, BooksOk, NetOk, ComparedPart, Findable, RemoteSeq, LocalSeq;
    var r := InvLinks(w, k1);
    SessionIs(w, k1, b, r);
    NodeWellFormed(b, w.nodes[b], w.asked);
    OneSlotFindable(w, b, k1, k2, n1, n2, k2.0);
  }

  lemma OverwrittenDisagrees(w: World, d2: Datagram, e: Datagram, k1: Key, k2: Key, b: Address, n1: uint64,
                             n2: uint64, s: Conn)
    requires Inv(w) && w.asked == TwoRequests(k1, k2, b, n1, n2) && k1 != k2 && n1 != n2
    requires SlotOf(k1.0, k1.1) == SlotOf(k2.0, k2.1)
    requires |d2.bytes| <= SIZE && IsAnswer(w, d2, e) && d2.to == b && d2.from == k2.0 && Seen(d2).h.session == k2.1
    requires Seq64(Seen(d2).first, Seen(d2).h.sequence) == n2
    ensures !Agreed(w, k1, s)
  {
    hide Inv, Seen, ComparedPart, RemoteSeq, Seq64, FromSession, LocalSeq;
    if Agreed(w, k1, s) {
      SessionIs(w, k1, b, s);
      assert false;
    }
  }

  /** Exactly when agreement holds. Two clients call the same system with these numbers: in every
      state that can be reached the first one, once answered, agrees with its session, if and only
      if the system can tell them apart or their numbers are the same. */
  lemma AgreementIff(k1: Key, k2: Key, b: Address, n1: uint64, n2: uint64)
    requires k1 != k2
    ensures (forall w :: Reached(w) && w.asked == TwoRequests(k1, k2, b, n1, n2) && k1 in w.answered ==>
               exists s :: Agreed(w, k1, s))
       <==> SlotOf(k1.0, k1.1) != SlotOf(k2.0, k2.1) || n1 == n2
  {
    hide Reached, Agreed, SlotOf;
    if SlotOf(k1.0, k1.1) != SlotOf(k2.0, k2.1) || n1 == n2 {
      forall w | Reached(w) && w.asked == TwoRequests(k1, k2, b, n1, n2) && k1 in w.answered
        ensures exists s :: Agreed(w, k1, s)
      {
        Agrees(w, k1);
      }
    } else {
      var w := Disagreement(k1, k2, b, n1, n2);
    }
  }
}
