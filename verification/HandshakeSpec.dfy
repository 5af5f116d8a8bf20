/** The session handshake as a transition system: any number of systems, each running the code
    of `SystemSpec`, on a network that loses, duplicates and reorders datagrams. */
module HandshakeSpec {
  import opened MachineTypes
  import opened PacketSpec
  import opened TransferSpec
  import opened TransferQueue
  import opened AddressOrder
  import opened SystemSpec

  type Key = (Address, uint32)  // a client: its system's address and its session id
  type Conn = nat  // the identity of a connection object within its system

  datatype Datagram = Datagram(from: Address, to: Address, bytes: seq<uint8>)

  // A session request as it was made: whom it went to, and under which number.
  datatype Asked = Asked(to: Address, number: uint64)

  // `asked` and `answered` record the past and are never consulted by a step: the requests, by the
  // client's address and session id, and those for which an answer was processed.
  datatype World = World(nodes: map<Address, Node<Conn>>, net: multiset<Datagram>, asked: map<Key, Asked>,
                         answered: set<Key>)

  datatype Step =
    | Dials(a: Address, to: Address, t: Conn, x: Xfer, id: uint32, ok: bool)
    | UserSends(a: Address, id: uint32, b: Buf, ok: bool)
    | Ticks(a: Address, answers: Conn -> nat -> bool)
    | Delivers(d: Datagram, t: Conn, low: uint32, high: uint32, id: uint32)
    | Duplicates(d: Datagram)
    | Loses(d: Datagram)

  function Seen(d: Datagram): Incoming
    requires |d.bytes| <= SIZE
  {
    Parse(Received(d.bytes))
  }

  predicate Accepts(inc: Incoming) { IsControl(inc.h.flags) && inc.h.code == ACCEPT }

  // Users do not forge control packets.
  predicate PlainBytes(bytes: seq<uint8>) {
    1 <= |bytes| <= SIZE && !IsControl(Parse(Received(bytes)).h.flags)
  }

  predicate PlainPacket(b: Buf)
    requires Closable(b)
  {
    var c := Complete(b);
    c.pksz >= 1 ==> PlainBytes(c.data[..c.pksz])
  }

  predicate Unused(n: Node<Conn>, t: Conn, id: uint32) { t !in n.at && id !in n.mim }

  /** When a step can happen. New connections are new objects whose session id is not in use at their
      system; users send on connections that they connected themselves; and a session is looked up
      only where the table's order makes the lookup defined. */
  ghost predicate Enabled(w: World, s: Step) {
    match s
    case Dials(a, to, t, x, id, ok) => a in w.nodes && Unused(w.nodes[a], t, id) && x.rt == []
    case UserSends(a, id, b, ok) =>
      a in w.nodes && (a, id) in w.asked && id in w.nodes[a].mim && w.nodes[a].mim[id] in w.nodes[a].at
      && Closable(b) && PlainPacket(b)
    case Ticks(a, answers) => a in w.nodes && Ready(w.nodes[a])
    case Delivers(d, t, low, high, id) =>
      && d in w.net && d.to in w.nodes && 1 <= |d.bytes| <= SIZE && WellFormed(w.nodes[d.to])
      && (Requests(Seen(d)) ==> Findable(w.nodes[d.to].pas.Keys, d.from))
      && (Opens(w.nodes[d.to], d.from, Seen(d)) ==> Unused(w.nodes[d.to], t, id))
    case Duplicates(d) => d in w.net
    case Loses(d) => d in w.net
  }

  // What a tick relies on; it always holds.
  ghost predicate Ready(n: Node<Conn>) {
    WellFormed(n) && forall t :: t in n.at ==> Sized(n.at[t].rt)
  }

  function ToNet(a: Address, out: seq<Outgoing>): multiset<Datagram> {
    multiset(seq(|out|, k requires 0 <= k < |out| => Datagram(a, out[k].to, out[k].bytes)))
  }

  function Optional<T>(o: Option<T>): seq<T> {
    match o case None => [] case Some(v) => [v]
  }

  function Receive(n: Node<Conn>, from: Address, inc: Incoming, t: Conn, low: uint32, high: uint32,
                   id: uint32): (Node<Conn>, Option<Outgoing>)
    requires WellFormed(n)
  {
    if Opens(n, from, inc) then Open(n, from, inc, t, low, high, id) else Route(n, from, inc)
  }

  function UserOut(x: Xfer, b: Buf): seq<Outgoing>
    requires Closable(b)
  {
    var c := Complete(b);
    if c.pksz >= 1 then [Outgoing(x.remote, c.data[..c.pksz])] else []
  }

  // The client that processes an answer, if the datagram is one.
  function Taken(n: Node<Conn>, d: Datagram): set<Key>
    requires |d.bytes| <= SIZE
  {
    if Accepts(Seen(d)) && Seen(d).h.session in n.mim then {(d.to, Seen(d).h.session)} else {}
  }

  // One system moves on and hands packets to the network.
  function Move(w: World, a: Address, n: Node<Conn>, out: seq<Outgoing>): World {
    w.(nodes := w.nodes[a := n], net := w.net + ToNet(a, out))
  }

  function Do(w: World, s: Step): World
    requires Enabled(w, s)
  {
    match s
    case Dials(a, to, t, x, id, ok) =>
      Move(w, a, Dial(w.nodes[a], to, t, x, id, ok), [Request(to, x, id)])
        .(asked := w.asked[(a, id) := Asked(to, LocalSeq(x))])
    case UserSends(a, id, b, ok) =>
      var n := w.nodes[a];
      var t := n.mim[id];
      Move(w, a, n.(at := n.at[t := Enqueue(n.at[t], b, ok)]), UserOut(n.at[t], b))
    case Ticks(a, answers) =>
      Move(w, a, TickAll(w.nodes[a], answers), TickAllSends(w.nodes[a].mis, w.nodes[a].at))
    case Delivers(d, t, low, high, id) =>
      var (n, reply) := Receive(w.nodes[d.to], d.from, Seen(d), t, low, high, id);
      Move(w.(net := w.net - multiset{d}), d.to, n, Optional(reply))
        .(answered := w.answered + Taken(w.nodes[d.to], d))
    case Duplicates(d) => w.(net := w.net + multiset{d})
    case Loses(d) => w.(net := w.net - multiset{d})
  }

  ghost predicate Start(w: World) {
    && (forall a :: a in w.nodes ==> w.nodes[a] == Node(map[], map[], [], map[]))
    && w.net == multiset{} && w.asked == map[] && w.answered == {}
  }

  ghost predicate IsRun(ws: seq<World>, steps: seq<Step>) {
    && |ws| == |steps| + 1 && Start(ws[0])
    && forall k :: 0 <= k < |steps| ==> Enabled(ws[k], steps[k]) && ws[k + 1] == Do(ws[k], steps[k])
  }

  ghost predicate Reached(w: World) {
    exists ws: seq<World>, steps: seq<Step> :: IsRun(ws, steps) && ws[|steps|] == w
  }

  // ---- What the two ends know about each other ----

  // The connections that were made for a request from outside.
  ghost predicate IsSession(n: Node<Conn>, s: Conn) { s in n.pas.Values && s in n.at }

  ghost predicate SessionFor(w: World, b: Address, s: Conn, key: Key) {
    b in w.nodes && IsSession(w.nodes[b], s) && w.nodes[b].at[s].remote == key.0 && w.nodes[b].at[s].rsess == key.1
  }

  function Client(w: World, key: Key): (x: Option<Xfer>) {
    if key.0 in w.nodes && key.1 in w.nodes[key.0].mim && w.nodes[key.0].mim[key.1] in w.nodes[key.0].at
    then Some(w.nodes[key.0].at[w.nodes[key.0].mim[key.1]])
    else None
  }

  /** The client of `key` and the connection `s` of the system it called know each other: they agree
      on both session ids and on the number the system sends with, and `s` is the only connection,
      in any system, for that client. */
  ghost predicate Linked(w: World, key: Key, s: Conn) {
    && key in w.asked
    && Client(w, key).Some?
    && var x := Client(w, key).value;
    && SessionFor(w, x.remote, s, key)
    && var y := w.nodes[x.remote].at[s];
    && x.lsess == key.1 && x.remote == w.asked[key].to
    && y.lsess == x.rsess && y.rsess == x.lsess && y.remote == key.0
    && RemoteSeq(x) == LocalSeq(y)
    && forall b, r :: SessionFor(w, b, r, key) ==> b == x.remote && r == s
  }

  /** And the system expects the number that the client sent. */
  ghost predicate Agreed(w: World, key: Key, s: Conn) {
    Linked(w, key, s) && RemoteSeq(w.nodes[w.asked[key].to].at[s]) == w.asked[key].number
  }

  // The requests that share a session with that of `key`: the same system was called, with the same
  // id, from addresses that its table cannot tell apart.
  predicate Shares(asked: map<Key, Asked>, key: Key, other: Key)
    requires key in asked && other in asked
  {
    SlotOf(other.0, other.1) == SlotOf(key.0, key.1) && asked[other].to == asked[key].to
  }

  ghost predicate Undisturbed(asked: map<Key, Asked>, key: Key) {
    && key in asked
    && forall other :: other in asked && Shares(asked, key, other) ==> asked[other].number == asked[key].number
  }

  ghost predicate Alone(asked: map<Key, Asked>, key: Key) {
    key in asked && forall other :: other in asked && Shares(asked, key, other) ==> other == key
  }
}
