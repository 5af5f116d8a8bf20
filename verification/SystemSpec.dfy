/** `MEISystem` on values: the two session tables and what they route to (src/MEISystem.cpp).
    `Id` stands for the identity of a connection object. */
module SystemSpec {
  import opened MachineTypes
  import Frames
  import opened TransferSpec
  import opened TransferQueue
  import opened AddressOrder

  // The tables `mim` and `pas`, the list `mis`, and the state of every connection. `pas` holds one
  // entry for all addresses that its order cannot tell apart.
  datatype Node<!Id(==)> = Node(mim: map<uint32, Id>, pas: map<Slot, Id>, mis: seq<Id>, at: map<Id, Xfer>)

  // A packet handed to the socket.
  datatype Outgoing = Outgoing(to: Address, bytes: seq<uint8>)

  ghost predicate WellFormed<Id>(n: Node<Id>) {
    && (forall id :: id in n.mim ==> n.mim[id] in n.at)
    && (forall key :: key in n.pas ==> n.pas[key] in n.at)
    && (forall k :: 0 <= k < |n.mis| ==> n.mis[k] in n.at)
    && (forall t :: t in n.at ==> Buffers(n.at[t].rt))
  }

  // `std::map::insert`: a key that is present keeps its value.
  function MapInsert<K, V>(m: map<K, V>, k: K, v: V): map<K, V> {
    if k in m then m else m[k := v]
  }

  function HandleAt<Id>(n: Node<Id>, t: Id, inc: Incoming): (Node<Id>, Option<Outgoing>)
    requires t in n.at && Buffers(n.at[t].rt)
  {
    var (x, reply) := Handle(n.at[t], inc);
    (n.(at := n.at[t := x]), match reply { case None => None case Some(bytes) => Some(Outgoing(x.remote, bytes)) })
  }

  predicate Requests(inc: Incoming) { inc.h.code == CONNECT && IsControl(inc.h.flags) }

  // The packet makes `ProcessReceive` create a connection.
  predicate Opens<Id>(n: Node<Id>, from: Address, inc: Incoming) {
    Requests(inc) && SlotOf(from, inc.h.session) !in n.pas
  }

  // A connection for a new session request, with its send counter and session id.
  function AddSession<Id>(n: Node<Id>, from: Address, session: uint32, t: Id, low: uint32, high: uint32,
                          id: uint32): Node<Id> {
    var x := Xfer(from, id, session, [], low, high, 0, 0);
    Node(MapInsert(n.mim, id, t), MapInsert(n.pas, SlotOf(from, session), t), [t] + n.mis, n.at[t := x])
  }

  function Open<Id>(n: Node<Id>, from: Address, inc: Incoming, t: Id, low: uint32, high: uint32,
                    id: uint32): (Node<Id>, Option<Outgoing>) {
    HandleAt(AddSession(n, from, inc.h.session, t, low, high, id), t, inc)
  }

  // Any other packet goes to a known connection, or nowhere.
  function Route<Id>(n: Node<Id>, from: Address, inc: Incoming): (Node<Id>, Option<Outgoing>)
    requires WellFormed(n) && !Opens(n, from, inc)
  {
    if Requests(inc) then HandleAt(n, n.pas[SlotOf(from, inc.h.session)], inc)
    else if inc.h.session in n.mim then HandleAt(n, n.mim[inc.h.session], inc)
    else (n, None)
  }

  // `connect` on a connection `t` that was not used before and is in the state `x`.
  function Dial<Id>(n: Node<Id>, to: Address, t: Id, x: Xfer, id: uint32, ok: bool): Node<Id> {
    var x1 := x.(remote := to, lsess := id);
    ConnectBytes(x1);
    Node(MapInsert(n.mim, id, t), n.pas, [t] + n.mis, n.at[t := Enqueue(x1, ConnectBuf(x1), ok)])
  }

  function Request(to: Address, x: Xfer, id: uint32): Outgoing {
    Outgoing(to, Frames.Frame(ConnectMessage(id, LocalSeq(x))))
  }

  // `ProcessControl`: a tick of every connection; `answers(t)` are the socket's answers for it.
  function TickXfer(x: Xfer, answers: nat -> bool): Xfer {
    x.(rt := Tick(x.rt, seq(|x.rt|, (i: nat) => answers(i))))
  }

  function TickAll<Id>(n: Node<Id>, answers: Id -> nat -> bool): Node<Id> {
    n.(at := map t | t in n.at :: TickXfer(n.at[t], answers(t)))
  }

  // What the tick transmits, in the order of the list.
  function TickAllSends<Id>(mis: seq<Id>, at: map<Id, Xfer>): seq<Outgoing>
    requires forall k :: 0 <= k < |mis| ==> mis[k] in at && Sized(at[mis[k]].rt)
  {
    if |mis| == 0 then []
    else
      var n := |mis| - 1;
      TickAllSends(mis[..n], at) + Addressed(at[mis[n]].remote, TickSends(at[mis[n]].rt))
  }

  function Addressed(to: Address, packets: seq<seq<uint8>>): (r: seq<Outgoing>)
    ensures |r| == |packets| && forall k :: 0 <= k < |r| ==> r[k] == Outgoing(to, packets[k])
  {
    seq(|packets|, k requires 0 <= k < |packets| => Outgoing(to, packets[k]))
  }

  lemma {:induction false} SendsFirst<Id>(t: Id, mis: seq<Id>, at: map<Id, Xfer>)
    requires forall k :: 0 <= k < |[t] + mis| ==> ([t] + mis)[k] in at && Sized(at[([t] + mis)[k]].rt)
    requires forall k :: 0 <= k < |mis| ==> mis[k] in at && Sized(at[mis[k]].rt)
    ensures t in at && Sized(at[t].rt)
    ensures TickAllSends([t] + mis, at) == Addressed(at[t].remote, TickSends(at[t].rt)) + TickAllSends(mis, at)
  {
    hide Addressed, TickSends, Sized;
    var all := [t] + mis;
    assert all[0] == t;
    if |mis| == 0 {
      assert all[..0] == [] && TickAllSends(all[..0], at) == [] && mis == [];
    } else {
      assert all[..|mis|] == [t] + mis[..|mis| - 1] && all[|mis|] == mis[|mis| - 1];
      SendsFirst(t, mis[..|mis| - 1], at);
    }
  }

  /** A tick serves the connections that were made last first, whether they dialled or were called. */
  lemma NewestFirst<Id>(n: Node<Id>, a: Address, t: Id, x: Xfer, session: uint32, id: uint32, ok: bool,
                        at: map<Id, Xfer>)
    requires t in at && Sized(at[t].rt) && forall k :: 0 <= k < |n.mis| ==> n.mis[k] in at && Sized(at[n.mis[k]].rt)
    ensures forall m :: m == Dial(n, a, t, x, id, ok) || m == AddSession(n, a, session, t, x.lseq, x.lseqh, id) ==>
              && (forall k :: 0 <= k < |m.mis| ==> m.mis[k] in at && Sized(at[m.mis[k]].rt))
              && TickAllSends(m.mis, at) == Addressed(at[t].remote, TickSends(at[t].rt)) + TickAllSends(n.mis, at)
  {
    hide Sized, TickAllSends, TickSends, Addressed, Enqueue, ConnectBuf;
    SendsFirst(t, n.mis, at);
  }

  // The tick half way: the connections of `done` have had their turn.
  function TickSome<Id>(at: map<Id, Xfer>, done: seq<Id>, answers: Id -> nat -> bool): map<Id, Xfer> {
    map t | t in at :: if t in done then TickXfer(at[t], answers(t)) else at[t]
  }

  lemma TickNextOne<Id>(at: map<Id, Xfer>, mis: seq<Id>, i: nat, answers: Id -> nat -> bool)
    requires i < |mis| && mis[i] in at && mis[i] !in mis[..i]
    requires forall k :: 0 <= k < |mis| ==> mis[k] in at && Sized(at[mis[k]].rt)
    ensures TickSome(at, mis[..i], answers)[mis[i]] == at[mis[i]]
    ensures TickSome(at, mis[..i + 1], answers)
         == TickSome(at, mis[..i], answers)[mis[i] := TickXfer(at[mis[i]], answers(mis[i]))]
    ensures TickAllSends(mis[..i + 1], at)
         == TickAllSends(mis[..i], at) + Addressed(at[mis[i]].remote, TickSends(at[mis[i]].rt))
  {
    hide TickXfer, TickSends, Addressed, Sized;
    assert mis[..i + 1] == mis[..i] + [mis[i]];
  }

  lemma TickAllIs<Id>(n: Node<Id>, answers: Id -> nat -> bool)
    requires n.at.Keys == set k | 0 <= k < |n.mis| :: n.mis[k]
    ensures TickSome(n.at, [], answers) == n.at
    ensures TickAll(n, answers) == n.(at := TickSome(n.at, n.mis, answers))
  {}
}
