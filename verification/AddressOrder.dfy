/** `operator<` of `NetworkAddress` (src/network.cpp), by which the session table is sorted: what it
    compares, when it is an order at all, and which addresses it cannot tell apart. */
module AddressOrder {
  import opened MachineTypes
  import opened PacketSpec
  import opened TransferSpec

  const IPV4: uint16 := 2
  const IPV6: uint16 := 23

  // The first sixteen bytes behind the family: the port, for IPv6 the flow label, and the host.
  function SocketBytes(a: Address): (s: seq<uint8>)
    ensures |s| == 16
  {
    ([a.port / 0x100, a.port % 0x100] + (if a.family == IPV6 then Zeros(4) else []) + a.host + Zeros(16))[..16]
  }

  function Word(a: Address, k: nat): uint32
    requires k < 4
  {
    FromLe32(SocketBytes(a)[4 * k..4 * k + 4])
  }

  // `operator<`, for addresses of equal type and protocol as every received one has them.
  predicate OperatorLess(a: Address, b: Address) {
    if a.family < b.family then true
    else if a.family != b.family then false
    else if a.family == IPV4 then Word(a, 0) < Word(b, 0)
    else if a.family == IPV6 then
      Word(a, 0) < Word(b, 0) || Word(a, 1) < Word(b, 1) || Word(a, 2) < Word(b, 2) || Word(a, 3) < Word(b, 3)
    else false
  }

  // All that it looks at.
  datatype Compared = Compared(family: uint16, words: seq<uint32>)

  function ComparedPart(a: Address): (c: Compared)
    ensures |c.words| == WordCount(c.family)
  {
    Compared(a.family, if a.family == IPV4 then [Word(a, 0)]
                       else if a.family == IPV6 then [Word(a, 0), Word(a, 1), Word(a, 2), Word(a, 3)] else [])
  }

  function WordCount(family: uint16): nat { if family == IPV4 then 1 else if family == IPV6 then 4 else 0 }

  ghost predicate Less(c: Compared, d: Compared) {
    || c.family < d.family
    || (c.family == d.family && |c.words| == |d.words| && exists k :: 0 <= k < |c.words| && c.words[k] < d.words[k])
  }

  lemma OperatorLessIs(a: Address, b: Address)
    ensures OperatorLess(a, b) <==> Less(ComparedPart(a), ComparedPart(b))
  {
    hide Word;
    var c, d := ComparedPart(a), ComparedPart(b);
    if a.family == b.family == IPV6 && OperatorLess(a, b) {
      assert c.words[0] < d.words[0] || c.words[1] < d.words[1] || c.words[2] < d.words[2] || c.words[3] < d.words[3];
    } else if a.family == b.family == IPV4 && OperatorLess(a, b) {
      assert c.words[0] < d.words[0];
    }
  }

  // ---- What it cannot tell apart ----

  ghost predicate Alike(a: Address, b: Address) { !OperatorLess(a, b) && !OperatorLess(b, a) }

  /** Two addresses are the same to the table exactly when their compared parts are. */
  lemma AlikeIff(a: Address, b: Address)
    ensures Alike(a, b) <==> ComparedPart(a) == ComparedPart(b)
  {
    hide ComparedPart, OperatorLess;
    OperatorLessIs(a, b);
    OperatorLessIs(b, a);
    SameCompared(a, b);
    var c, d := ComparedPart(a), ComparedPart(b);
    if Alike(a, b) {
      forall k | 0 <= k < |c.words| ensures c.words[k] == d.words[k] {
        assert !(c.words[k] < d.words[k]) && !(d.words[k] < c.words[k]);
      }
      assert c.words == d.words;
    }
  }

  lemma SameCompared(a: Address, b: Address)
    ensures ComparedPart(a).family == a.family && ComparedPart(b).family == b.family
    ensures a.family == b.family ==> |ComparedPart(a).words| == |ComparedPart(b).words|
  {}

  /** IPv4 addresses are alike exactly when port and first two octets agree: the last two octets
      are never looked at. */
  lemma Ipv4AlikeIff(a: Address, b: Address)
    requires a.family == b.family == IPV4 && |a.host| == |b.host| == 4
    ensures Alike(a, b) <==> a.port == b.port && a.host[..2] == b.host[..2]
  {
    hide FromLe32, SocketBytes;
    Ipv4Word(a);
    Ipv4Word(b);
    PortBytes(a.port, b.port);
    LeInjective(SocketBytes(a)[0..4], SocketBytes(b)[0..4]);
    var x := [a.port / 0x100, a.port % 0x100, a.host[0], a.host[1]];
    var y := [b.port / 0x100, b.port % 0x100, b.host[0], b.host[1]];
    assert a.host[..2] == [a.host[0], a.host[1]] && b.host[..2] == [b.host[0], b.host[1]];
    assert x == y <==> x[0] == y[0] && x[1] == y[1] && x[2] == y[2] && x[3] == y[3];
  }

  lemma Ipv4Word(a: Address)
    requires a.family == IPV4 && |a.host| == 4
    ensures SocketBytes(a)[0..4] == [a.port / 0x100, a.port % 0x100, a.host[0], a.host[1]]
  {}

  lemma PortBytes(p: uint16, q: uint16)
    ensures p == q <==> p / 0x100 == q / 0x100 && p % 0x100 == q % 0x100
  {}

  lemma LeBack(x: seq<uint8>)
    requires |x| == 4
    ensures Le32(FromLe32(x)) == x
  {
    var n: int := FromLe32(x);
    var a, b, c, d := x[0] as int, x[1] as int, x[2] as int, x[3] as int;
    assert n / 0x100 == b + c * 0x100 + d * 0x1_0000;
    assert n / 0x1_0000 == c + d * 0x100;
    assert n / 0x100_0000 == d;
  }

  lemma LeInjective(x: seq<uint8>, y: seq<uint8>)
    requires |x| == |y| == 4
    ensures FromLe32(x) == FromLe32(y) <==> x == y
  {
    hide Le32, FromLe32;
    LeBack(x);
    LeBack(y);
  }

  /** IPv6 addresses are alike exactly when port and first ten octets agree. */
  lemma Ipv6AlikeIff(a: Address, b: Address)
    requires a.family == b.family == IPV6 && |a.host| == |b.host| == 16
    ensures Alike(a, b) <==> a.port == b.port && a.host[..10] == b.host[..10]
  {
    hide FromLe32, SocketBytes, OperatorLess, Alike;
    AlikeIff(a, b);
    Ipv6Bytes(a);
    Ipv6Bytes(b);
    PortBytes(a.port, b.port);
    var x, y := SocketBytes(a), SocketBytes(b);
    LeInjective(x[0..4], y[0..4]);
    LeInjective(x[4..8], y[4..8]);
    LeInjective(x[8..12], y[8..12]);
    LeInjective(x[12..16], y[12..16]);
    FourSlices(x, y);
    HeadsAlike(a, b);
  }

  lemma Ipv6Bytes(a: Address)
    requires a.family == IPV6 && |a.host| == 16
    ensures SocketBytes(a) == [a.port / 0x100, a.port % 0x100] + [0, 0, 0, 0] + a.host[..10]
  {}

  lemma FourSlices(x: seq<uint8>, y: seq<uint8>)
    requires |x| == |y| == 16
    ensures x == y <==> x[0..4] == y[0..4] && x[4..8] == y[4..8] && x[8..12] == y[8..12] && x[12..16] == y[12..16]
  {
    assert x == x[0..4] + x[4..8] + x[8..12] + x[12..16] && y == y[0..4] + y[4..8] + y[8..12] + y[12..16];
  }

  lemma HeadsAlike(a: Address, b: Address)
    requires |a.host| == |b.host| == 16
    ensures var x := [a.port / 0x100, a.port % 0x100] + [0, 0, 0, 0] + a.host[..10];
            var y := [b.port / 0x100, b.port % 0x100] + [0, 0, 0, 0] + b.host[..10];
            x == y <==> && a.port / 0x100 == b.port / 0x100 && a.port % 0x100 == b.port % 0x100
                        && a.host[..10] == b.host[..10]
  {
    var x := [a.port / 0x100, a.port % 0x100] + [0, 0, 0, 0] + a.host[..10];
    var y := [b.port / 0x100, b.port % 0x100] + [0, 0, 0, 0] + b.host[..10];
    if x == y {
      assert x[0] == y[0] && x[1] == y[1] && x[6..] == a.host[..10] && y[6..] == b.host[..10];
    }
  }

  // The octets of an IPv4 address as they decide, the second one first.
  function Weight(a: Address): nat
    requires |a.host| == 4
  {
    a.host[1] * 0x100_0000 + a.host[0] * 0x1_0000 + a.port % 0x100 * 0x100 + a.port / 0x100
  }

  /** Of two IPv4 addresses the second octet decides, then the first, then the low byte of the port and
      at last its high byte. */
  lemma Ipv4LessIff(a: Address, b: Address)
    requires a.family == b.family == IPV4 && |a.host| == |b.host| == 4
    ensures OperatorLess(a, b) <==> Weight(a) < Weight(b)
  {
    hide SocketBytes;
    Ipv4Word(a);
    Ipv4Word(b);
  }

  // ---- When it is an order ----

  // Each is less than the other.
  ghost predicate Crossed(c: Compared, d: Compared) { Less(c, d) && Less(d, c) }

  /** Outside IPv6 no two addresses cross. */
  lemma NotCrossed(a: Address, b: Address)
    requires a.family != IPV6
    ensures !Crossed(ComparedPart(a), ComparedPart(b))
  {
    hide Word;
  }

  /** Within IPv6 they can: here by port and host. */
  lemma Ipv6Crosses()
    ensures var a, b := Address(IPV6, Zeros(16), 1), Address(IPV6, Zeros(16)[0 := 1], 0);
            OperatorLess(a, b) && OperatorLess(b, a)
  {
    var a, b := Address(IPV6, Zeros(16), 1), Address(IPV6, Zeros(16)[0 := 1], 0);
    assert SocketBytes(a)[0..4] == [0, 1, 0, 0] && SocketBytes(b)[0..4] == [0, 0, 0, 0];
    assert SocketBytes(a)[4..8] == [0, 0, 0, 0] && SocketBytes(b)[4..8] == [0, 0, 1, 0];
  }

  /** Among addresses that do not cross it is an order, so a sorted table finds exactly the entry
      whose compared part is the same. */
  lemma OrderWithoutCrossing(c: Compared, d: Compared, e: Compared)
    requires !Crossed(c, d) && !Crossed(d, e) && !Crossed(c, e)
    requires |c.words| == WordCount(c.family) && |d.words| == WordCount(d.family) && |e.words| == WordCount(e.family)
    ensures !Less(c, c)
    ensures c == d || Less(c, d) || Less(d, c)
    ensures Less(c, d) && Less(d, e) ==> Less(c, e)
  {
    if !Less(c, d) && !Less(d, c) {
      assert |c.words| == |d.words|;
      forall k | 0 <= k < |c.words| ensures c.words[k] == d.words[k] {
        assert !(c.words[k] < d.words[k]) && !(d.words[k] < c.words[k]);
      }
    }
    if Less(c, d) && Less(d, e) && c.family == d.family == e.family {
      var k :| 0 <= k < |c.words| && c.words[k] < d.words[k];
      assert !(e.words[k] < d.words[k]);
      assert c.words[k] < e.words[k];
    }
  }

  // A lookup of `from` in a table with these keys is defined.
  ghost predicate Findable(slots: set<Slot>, from: Address) {
    forall slot :: slot in slots ==> !Crossed(slot.0, ComparedPart(from))
  }

  // The key of `pas` as the order sees it.
  type Slot = (Compared, uint32)

  function SlotOf(from: Address, session: uint32): Slot { (ComparedPart(from), session) }
}
