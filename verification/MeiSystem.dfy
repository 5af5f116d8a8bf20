/** `MEISystem`: the tables as fields of an object, with the connections as objects in them. */
module MeiSystem {
  import opened MachineTypes
  import Spec = PacketSpec
  import Frames
  import opened Packet
  import opened TransferSpec
  import opened TransferQueue
  import opened Transfer
  import opened SystemSpec
  import opened AddressOrder

  class MeiSystem {
    var mim: map<uint32, Transfer>
    var pas: map<Slot, Transfer>
    var mis: seq<Transfer>

    ghost predicate Valid()
      reads this, Objects(mis), BuffersOf(mis)
    {
      && (forall t :: t in mis ==> t.Valid() && t.attached)
      && (forall i, j :: 0 <= i < j < |mis| ==> mis[i] != mis[j])
      && (forall id :: id in mim ==> mim[id] in mis)
      && (forall key :: key in pas ==> pas[key] in mis)
    }

    ghost function Contents(): Node<Transfer>
      reads this, Objects(mis), BuffersOf(mis)
    {
      Node(mim, pas, mis, States(mis))
    }

    constructor ()
      ensures Valid() && mim == map[] && pas == map[] && mis == []
    {
      mim, pas, mis := map[], map[], [];
    }

    // A packet reaches the connection `t`; `reply` goes to its remote end.
    method HandOver(t: Transfer, cr: Packet) returns (reply: Option<Outgoing>)
      requires Valid() && t in mis && cr.Valid() && cr.ptr != null
      modifies t, cr`mark
      ensures Valid() && mim == old(mim) && pas == old(pas) && mis == old(mis)
      ensures Objects(mis) == old(Objects(mis))
      ensures WellFormed(old(Contents()))
      ensures (Contents(), reply) == HandleAt(old(Contents()), t, Parse(old(cr.Contents())))
    {
      hide Handle, Parse, Transfer.Valid, Transfer.Contents, States;
      StatesWhole(mis);
      var bytes := t.HandleRecv(cr);
      RemoteIs(t);
      StatesAt(mis);
      forall u | u in mis && u != t ensures u.Contents() == old(u.Contents()) && u.Valid() {
        SameContents(u);
      }
      assert States(mis) == old(States(mis))[t := t.Contents()];
      reply := match bytes { case None => None case Some(b) => Some(Outgoing(t.remote, b)) };
    }

    twostate lemma Unmoved()
      requires unchanged(this) && old(Valid())
      requires forall t :: t in mis ==> unchanged(t) && forall r :: r in t.rt ==> old(r.ptr[..]) == r.ptr[..]
      ensures Valid() && Contents() == old(Contents())
    {
      hide Transfer.Valid, Transfer.Contents;
      StatesAt(mis);
      OldStatesAt(mis);
      forall t | t in mis ensures t.Contents() == old(t.Contents()) && t.Valid() {
        SameContents(t);
      }
      assert States(mis) == old(States(mis));
    }

    // A new connection object enters the tables.
    method Enter(t: Transfer)
      requires Valid() && t !in mis && t.Valid() && t.attached && t.rt == []
      modifies this`mim, this`mis
      ensures Valid() && mim == MapInsert(old(mim), t.lsess, t) && mis == [t] + old(mis)
      ensures Contents() == Node(MapInsert(old(mim), t.lsess, t), old(pas), [t] + old(mis),
                                 old(Contents()).at[t := old(t.Contents())])
    {
      hide Transfer.Valid, Transfer.Contents, States;
      mis := [t] + mis;
      mim := MapInsert(mim, t.lsess, t);
      forall u | u in mis ensures u.Contents() == old(u.Contents()) && u.Valid() {
        SameContents(u);
      }
      StatesAt(mis);
      OldStatesAt(old(mis));
      assert States(mis) == old(States(mis))[t := t.Contents()];
    }

    method NewSession(a: Address, session: uint32, low: uint32, high: uint32, id: uint32) returns (nses: Transfer)
      requires Valid() && SlotOf(a, session) !in pas
      modifies this
      ensures Valid() && fresh(nses) && nses in mis && Objects(mis) == old(Objects(mis)) + {nses}
      ensures Contents() == AddSession(old(Contents()), a, session, nses, low, high, id)
    {
      hide Transfer.Valid, Transfer.Contents, States;
      nses := new Transfer(low, high);
      nses.attached, nses.remote, nses.lsess, nses.rsess := true, a, id, session;
      EmptyQueue(nses);
      Unmoved();
      Enter(nses);
      Remember(SlotOf(a, session), nses);
    }

    method Remember(key: Slot, t: Transfer)
      requires Valid() && t in mis
      modifies this`pas
      ensures Valid() && mis == old(mis) && Contents() == old(Contents()).(pas := MapInsert(old(pas), key, t))
    {
      hide Transfer.Valid, Transfer.Contents, States;
      pas := MapInsert(pas, key, t);
      forall u | u in mis ensures u.Contents() == old(u.Contents()) && u.Valid() {
        SameContents(u);
      }
      StatesAt(mis);
      OldStatesAt(mis);
      assert States(mis) == old(States(mis));
    }

    /** `ProcessReceive` for a datagram `bytes` from `a`; `nses` is the connection it creates, if
        any, for which the generator delivers the last three arguments. The table of sessions is
        sorted, so a lookup has to be among addresses that its order does order. */
    method ProcessReceive(a: Address, bytes: seq<uint8>, low: uint32, high: uint32, id: uint32)
        returns (nses: Transfer?, reply: Option<Outgoing>)
      requires Valid() && |bytes| <= Spec.SIZE
      requires Requests(Parse(Received(bytes))) ==> Findable(pas.Keys, a)
      modifies this, Objects(mis)
      ensures Valid() && WellFormed(old(Contents()))
      ensures bytes == [] ==> nses == null && reply == None && Contents() == old(Contents())
      ensures bytes != [] ==>
                var inc := Parse(Received(bytes));
                && (nses != null <==> Opens(old(Contents()), a, inc))
                && (nses == null ==> (Contents(), reply) == Route(old(Contents()), a, inc))
                && (nses != null ==>
                      && fresh(nses)
                      && (Contents(), reply) == Open(old(Contents()), a, inc, nses, low, high, id))
    {
      hide HandleAt, AddSession, Transfer.Valid, States, Parse, Received, Buffers;
      StatesWhole(mis);
      nses, reply := null, None;
      var cr, ph := Arrive(bytes);
      Unmoved();
      if bytes == [] {
        return;
      }
      if ph.code == CONNECT && IsControl(ph.flags) {
        if SlotOf(a, ph.session) in pas {
          reply := HandOver(pas[SlotOf(a, ph.session)], cr);
        } else {
          nses := NewSession(a, ph.session, low, high, id);
          reply := HandOver(nses, cr);
        }
      } else if ph.session in mim {
        reply := HandOver(mim[ph.session], cr);
      }
    }

    /** `connect`: the session id comes from the generator. */
    method Connect(a: Address, cnt: Transfer, id: uint32, ok: bool) returns (packet: Option<Outgoing>)
      requires Valid() && cnt.Valid() && !cnt.attached && cnt !in mis
      modifies this, cnt
      ensures Valid() && Contents() == Dial(old(Contents()), a, cnt, old(cnt.Contents()), id, ok)
      ensures packet == Some(Request(a, old(cnt.Contents()), id))
    {
      hide Transfer.Valid, States, Enqueue, ConnectBuf, ConnectMessage, Frames.Frame;
      IdleQueue(cnt);
      cnt.remote, cnt.attached, cnt.lsess := a, true, id;
      EmptyQueue(cnt);
      Unmoved();
      Enter(cnt);
      packet := Start(cnt, ok);
    }

    // The request on a connection that is in the tables.
    method Start(t: Transfer, ok: bool) returns (packet: Option<Outgoing>)
      requires Valid() && t in mis
      modifies t
      ensures Valid() && mim == old(mim) && pas == old(pas) && mis == old(mis)
      ensures States(mis) == old(States(mis))[
                t := Enqueue(old(t.Contents()), (ConnectBytes(old(t.Contents())); ConnectBuf(old(t.Contents()))), ok)]
      ensures packet
           == Some(Outgoing(old(t.remote), Frames.Frame(ConnectMessage(old(t.lsess), LocalSeq(old(t.Contents()))))))
    {
      hide Transfer.Valid, Transfer.Contents, States, Enqueue, ConnectBuf, ConnectMessage, Frames.Frame, LocalSeq;
      var sent := t.Connect(ok);
      forall u | u in mis && u != t ensures u.Contents() == old(u.Contents()) && u.Valid() {
        SameContents(u);
      }
      StatesAt(mis);
      OldStatesAt(mis);
      assert States(mis) == old(States(mis))[t := t.Contents()];
      packet := match sent { case None => None case Some(bytes) => Some(Outgoing(t.remote, bytes)) };
    }

    // One connection's turn.
    method TickOne(t: Transfer, answers: nat -> bool) returns (packets: seq<Outgoing>)
      requires Valid() && t in mis
      modifies t
      ensures Valid() && mim == old(mim) && pas == old(pas) && mis == old(mis)
      ensures Sized(old(t.Contents()).rt) && packets == Addressed(old(t.remote), TickSends(old(t.Contents()).rt))
      ensures States(mis) == old(States(mis))[t := TickXfer(old(t.Contents()), answers)]
    {
      hide Transfer.Valid, States, Tick, TickSends, Addressed, ViewAll, View, Sized;
      QueueSized(t);
      var sent := t.HandleInterval(answers);
      forall u | u in mis && u != t ensures u.Contents() == old(u.Contents()) && u.Valid() {
        SameContents(u);
      }
      StatesAt(mis);
      OldStatesAt(mis);
      assert States(mis) == old(States(mis))[t := t.Contents()];
      packets := Addressed(t.remote, sent);
    }

    /** `ProcessControl`: every connection's timers, and the packets that are sent again. */
    method ProcessControl(answers: Transfer -> nat -> bool) returns (packets: seq<Outgoing>)
      requires Valid()
      modifies Objects(mis)
      ensures Valid() && WellFormed(old(Contents()))
      ensures Contents() == TickAll(old(Contents()), answers)
      ensures forall t :: t in mis ==> Sized(old(Contents()).at[t].rt)
      ensures packets == TickAllSends(mis, old(Contents()).at)
    {
      hide Transfer.Valid, Transfer.Contents, States, TickXfer, Sized, TickSends, Addressed, TickAll, TickSome, Buffers;
      packets := [];
      ghost var at := States(mis);
      StatesWhole(mis);
      StatesSized(mis);
      StatesAt(mis);
      TickAllIs(Contents(), answers);
      var i := 0;
      assert mis[..0] == [];
      while i < |mis|
        invariant i <= |mis|
        invariant Valid() && mim == old(mim) && pas == old(pas) && mis == old(mis)
        invariant States(mis) == TickSome(at, mis[..i], answers)
        invariant packets == TickAllSends(mis[..i], at)
      {
        StatesAt(mis);
        TickNextOne(at, mis, i, answers);
        RemoteIs(mis[i]);
        var sent := TickOne(mis[i], answers(mis[i]));
        packets := packets + sent;
        i := i + 1;
      }
      assert mis[..i] == mis;
    }
  }

  // The datagram in a packet of its own, and its header.
  method Arrive(bytes: seq<uint8>) returns (cr: Packet, ph: Spec.Header)
    requires |bytes| <= Spec.SIZE
    ensures fresh(cr) && cr.Valid() && cr.ptr != null && fresh(cr.ptr)
    ensures cr.Contents() == Received(bytes) && ph == Parse(Received(bytes)).h
  {
    hide Spec.FetchHeader, Spec.Fetch32;
    cr := new Packet();
    cr.Alloc();
    cr.Store(0, bytes);
    cr.pksz := |bytes|;
    assert Put(Spec.Zeros(Spec.SIZE), 0, bytes) == bytes + Spec.Zeros(Spec.SIZE - |bytes|);
    ph := cr.FetchHeader();
    FetchMoves(Received(bytes));
    cr.Rewind();
  }

  lemma FetchMoves(b: Spec.Buf)
    requires Spec.Fits(b)
    ensures Spec.FetchHeader(b).0 == b.(mark := Spec.FetchHeader(b).0.mark)
  {}

  ghost function Objects(mis: seq<Transfer>): set<Transfer> { set t | t in mis }

  // Every buffer that is queued somewhere.
  ghost function BuffersOf(mis: seq<Transfer>): set<array<uint8>>
    reads Objects(mis)
  {
    set t, b | t in mis && b in t.Held() :: b
  }

  ghost function States(mis: seq<Transfer>): map<Transfer, Xfer>
    reads Objects(mis), BuffersOf(mis)
  {
    map t | t in mis :: t.Contents()
  }

  lemma StatesWhole(mis: seq<Transfer>)
    requires forall t :: t in mis ==> t.Valid()
    ensures States(mis).Keys == Objects(mis)
    ensures forall t :: t in mis ==> States(mis)[t] == t.Contents() && Buffers(States(mis)[t].rt)
  {
    forall t | t in mis ensures Buffers(t.Contents().rt) {
      ViewsWhole(t.rt);
    }
  }

  lemma StatesAt(mis: seq<Transfer>)
    ensures States(mis).Keys == Objects(mis)
    ensures forall t :: t in mis ==> States(mis)[t] == t.Contents()
  {}

  twostate lemma OldStatesAt(mis: seq<Transfer>)
    ensures old(States(mis)).Keys == Objects(mis)
    ensures forall t :: t in mis ==> old(States(mis))[t] == old(t.Contents())
  {}

  twostate lemma SameContents(t: Transfer)
    requires unchanged(t) && forall r :: r in t.rt ==> old(r.ptr[..]) == r.ptr[..]
    ensures t.Contents() == old(t.Contents()) && t.Valid() == old(t.Valid())
  {
    SameBuffers(t.rt);
  }

  lemma EmptyQueue(t: Transfer)
    requires t.rt == []
    ensures t.Valid()
    ensures t.Contents() == Xfer(t.remote, t.lsess, t.rsess, [], t.lseq, t.lseqh, t.rseq, t.rseqh)
  {}

  lemma IdleQueue(t: Transfer)
    requires t.Valid() && !t.attached
    ensures t.rt == []
  {}

  lemma QueueSized(t: Transfer)
    requires t.Valid()
    ensures Sized(t.Contents().rt)
  {
    ViewsFit(t.rt);
  }

  lemma StatesSized(mis: seq<Transfer>)
    requires forall t :: t in mis ==> t.Valid()
    ensures forall t :: t in mis ==> t in States(mis) && Sized(States(mis)[t].rt)
  {
    hide Transfer.Contents;
    StatesAt(mis);
    forall t | t in mis ensures Sized(t.Contents().rt) {
      QueueSized(t);
    }
  }

  lemma RemoteIs(t: Transfer)
    ensures t.Contents().remote == t.remote
  {}

}
