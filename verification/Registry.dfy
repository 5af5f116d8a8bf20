/** The registry of systems that are served (`IMEIControl::systems`) and the poll lists that follow
    it (`NetworkQuery`), src/MEISystem.cpp and src/network.cpp. */
module Registry {

  // ---- Lists ----

  // The entries of which `drop` does not hold, in order.
  function Without<T>(s: seq<T>, drop: T -> bool): seq<T> {
    if |s| == 0 then [] else Without(s[..|s| - 1], drop) + if drop(s[|s| - 1]) then [] else [s[|s| - 1]]
  }

  lemma {:induction false} WithoutConcat<T>(s: seq<T>, t: seq<T>, drop: T -> bool)
    ensures Without(s + t, drop) == Without(s, drop) + Without(t, drop)
  {
    if |t| == 0 {
      assert s + t == s;
    } else {
      var n := |t| - 1;
      assert (s + t)[..|s| + n] == s + t[..n];
      WithoutConcat(s, t[..n], drop);
    }
  }

  lemma {:induction false} WithoutMembers<T>(s: seq<T>, drop: T -> bool)
    ensures forall x :: x in Without(s, drop) <==> x in s && !drop(x)
    ensures forall k :: 0 <= k < |Without(s, drop)| ==> !drop(Without(s, drop)[k])
  {
    if |s| > 0 {
      assert s == s[..|s| - 1] + [s[|s| - 1]];
      WithoutMembers(s[..|s| - 1], drop);
    }
  }

  lemma {:induction false} WithoutNone<T>(s: seq<T>, drop: T -> bool)
    requires forall k :: 0 <= k < |s| ==> !drop(s[k])
    ensures Without(s, drop) == s
  {
    if |s| > 0 {
      WithoutNone(s[..|s| - 1], drop);
      assert s == s[..|s| - 1] + [s[|s| - 1]];
    }
  }

  lemma WithoutEmpty<T>(drop: T -> bool)
    ensures Without([], drop) == []
  {}

  // One turn of an erasing loop: `s` is what is left of `all`, whose first `done` entries the
  // loop has passed, and `i` is where it stands.
  lemma EraseTurn<T>(all: seq<T>, s: seq<T>, i: nat, done: nat, drop: T -> bool)
    requires i < |s| && done <= |all| && s[i..] == all[done..] && s[..i] == Without(all[..done], drop)
    ensures done < |all| && s[i] == all[done]
    ensures drop(s[i]) ==>
              var r := s[..i] + s[i + 1..]; r[i..] == all[done + 1..] && r[..i] == Without(all[..done + 1], drop)
    ensures !drop(s[i]) ==> s[i + 1..] == all[done + 1..] && s[..i + 1] == Without(all[..done + 1], drop)
  {
    assert |s[i..]| == |all[done..]|;
    assert s[i..][0] == all[done..][0];
    assert s[i + 1..] == s[i..][1..] && all[done + 1..] == all[done..][1..];
    assert all[..done + 1][..done] == all[..done];
  }

  // ---- Poll types ----

  // The platform's poll bits.
  datatype Native = Native(rd: bv16, wr: bv16, pr: bv16, ob: bv16, iv: bv16, hu: bv16, er: bv16)

  const WINDOWS: Native := Native(0x100, 0x10, 0x400, 0x200, 0x4, 0x2, 0x1)
  const POSIX: Native := Native(0x1, 0x4, 0x2, 0x2, 0x20, 0x10, 0x8)

  const READ: bv16 := 0x1
  const WRITE: bv16 := 0x2
  const OOB: bv16 := 0x4
  const PRI: bv16 := 0x8
  const ERROR: bv16 := 0x10
  const HUP: bv16 := 0x20
  const INVAL: bv16 := 0x40

  function Bit(on: bool, bit: bv16): bv16 { if on then bit else 0 }
  predicate Has(t: bv16, bit: bv16) { t & bit != 0 }

  function QueryTypeToNative(p: Native, t: bv16): bv16 {
    Bit(Has(t, READ), p.rd) | Bit(Has(t, WRITE), p.wr) | Bit(Has(t, OOB), p.ob) | Bit(Has(t, PRI), p.pr)
  }

  function NativeToQueryType(p: Native, t: bv16): bv16 {
    Together(Has(t, p.rd), Has(t, p.wr), Has(t, p.ob), Has(t, p.pr), Has(t, p.iv), Has(t, p.hu), Has(t, p.er))
  }

  function Together(rd: bool, wr: bool, ob: bool, pr: bool, iv: bool, hu: bool, er: bool): bv16 {
    Bit(rd, READ) | Bit(wr, WRITE) | Bit(ob, OOB) | Bit(pr, PRI) | Bit(iv, INVAL) | Bit(hu, HUP) | Bit(er, ERROR)
  }

  /** A request type survives the platform's form and back. Where out-of-band data is reported as
      priority data, it does so exactly when both or neither were asked for. */
  lemma TypesRoundTrip(t: bv16)
    requires t < 16
    ensures NativeToQueryType(WINDOWS, QueryTypeToNative(WINDOWS, t)) == t
    ensures NativeToQueryType(POSIX, QueryTypeToNative(POSIX, t)) == t <==> (Has(t, OOB) <==> Has(t, PRI))
  {}

  /** What is asked for, bit by bit: each kind sets its bit and no other is set. */
  lemma QueryBits(p: Native, t: bv16)
    requires p == WINDOWS || p == POSIX
    ensures var n := QueryTypeToNative(p, t);
            && (Has(n, p.rd) <==> Has(t, READ)) && (Has(n, p.wr) <==> Has(t, WRITE))
            && (Has(n, p.ob) <==> Has(t, OOB) || (p == POSIX && Has(t, PRI)))
            && (Has(n, p.pr) <==> Has(t, PRI) || (p == POSIX && Has(t, OOB)))
            && n & !(p.rd | p.wr | p.pr | p.ob) == 0
  {}

  /** What is reported, bit by bit, whatever the platform's bits are. */
  lemma ReportedBits(p: Native, n: bv16)
    ensures var t := NativeToQueryType(p, n);
            && (Has(t, READ) <==> Has(n, p.rd)) && (Has(t, WRITE) <==> Has(n, p.wr))
            && (Has(t, OOB) <==> Has(n, p.ob)) && (Has(t, PRI) <==> Has(n, p.pr))
            && (Has(t, ERROR) <==> Has(n, p.er)) && (Has(t, HUP) <==> Has(n, p.hu))
            && (Has(t, INVAL) <==> Has(n, p.iv))
  {
    hide Together, Has;
    SevenBits(Has(n, p.rd), Has(n, p.wr), Has(n, p.ob), Has(n, p.pr), Has(n, p.iv), Has(n, p.hu), Has(n, p.er));
  }

  lemma SevenBits(rd: bool, wr: bool, ob: bool, pr: bool, iv: bool, hu: bool, er: bool)
    ensures var t := Together(rd, wr, ob, pr, iv, hu, er);
            && (Has(t, READ) <==> rd) && (Has(t, WRITE) <==> wr) && (Has(t, OOB) <==> ob) && (Has(t, PRI) <==> pr)
            && (Has(t, ERROR) <==> er) && (Has(t, HUP) <==> hu) && (Has(t, INVAL) <==> iv)
  {}

  /** An error, a hang-up and a bad socket, with the numbers the platforms have for them. */
  lemma TroubleNative()
    ensures NativeToQueryType(WINDOWS, 1) == 0x10 && NativeToQueryType(POSIX, 8) == 0x10
    ensures NativeToQueryType(WINDOWS, 2) == 0x20 && NativeToQueryType(POSIX, 16) == 0x20
    ensures NativeToQueryType(WINDOWS, 4) == 0x40 && NativeToQueryType(POSIX, 32) == 0x40
  {}

  /** For reading, with the numbers the platforms have for it. */
  lemma ReadNative()
    ensures QueryTypeToNative(WINDOWS, READ) == 0x100 && QueryTypeToNative(POSIX, READ) == 1
    ensures QueryTypeToNative(WINDOWS, WRITE) == 0x10 && QueryTypeToNative(POSIX, WRITE) == 4
  {}

  lemma ReadOnly(p: Native)
    ensures QueryTypeToNative(p, READ) == p.rd
  {}

  // ---- Objects ----

  // A system as far as the registry looks at it; its socket is a part of it and goes by its name.
  class System {
    var handle: int
    constructor (h: int)
      ensures handle == h
    {
      handle := h;
    }
  }

  // `IMEI_ECO`: the callback that leads from a socket to its system.
  class Callback {
    const sys: System
    constructor (s: System)
      ensures sys == s
    {
      sys := s;
    }
  }

  // `INetworkQueryType` and an entry of the poll list.
  datatype Query = Query(sck: System, native: bv16, eco: Callback)
  datatype PollFd = PollFd(fd: int, events: bv16)

  class NetworkQuery {
    const platform: Native
    var plist: seq<PollFd>
    var qlist: seq<Query>
    var inval: bool

    /** While the poll list is in use there is a query behind each of its entries. */
    ghost predicate Valid()
      reads this
    {
      !inval ==> |plist| == |qlist|
    }

    constructor (p: Native)
      ensures Valid() && platform == p && qlist == []
    {
      platform, plist, qlist, inval := p, [], [], true;
    }

    method Rebuild()
      requires Valid()
      modifies this`plist, this`inval
      ensures Valid() && !inval && |plist| == |qlist|
      ensures old(inval) ==> forall k :: 0 <= k < |qlist| ==>
                plist[k].fd == qlist[k].sck.handle && plist[k].events == qlist[k].native
      ensures !old(inval) ==> plist == old(plist)
    {
      if inval {
        inval := false;
        plist := Resized(plist, |qlist|);
        var i := 0;
        while i < |qlist| && i < |plist|
          invariant i <= |qlist| == |plist| && !inval
          invariant forall k :: 0 <= k < i ==>
                      plist[k].fd == qlist[k].sck.handle && plist[k].events == qlist[k].native
        {
          plist := plist[i := PollFd(qlist[i].sck.handle, qlist[i].native)];
          i := i + 1;
        }
      }
    }

    /** `Update`: the poll list becomes the image of the queries, entry by entry. */
    method Update()
      requires Valid()
      modifies this`plist, this`inval
      ensures Valid() && !inval && |plist| == |qlist|
      ensures forall k :: 0 <= k < |qlist| ==>
                plist[k].fd == qlist[k].sck.handle && plist[k].events == qlist[k].native
    {
      inval := true;
      Rebuild();
    }

    method Add(s: System, ty: bv16, eco: Callback)
      modifies this`qlist, this`inval
      ensures Valid() && qlist == old(qlist) + [Query(s, QueryTypeToNative(platform, ty), eco)]
    {
      qlist := qlist + [Query(s, QueryTypeToNative(platform, ty), eco)];
      inval := true;
    }

    /** `Remove`: every query on the socket goes, the others stay in order. */
    method Remove(s: System)
      requires Valid()
      modifies this`qlist, this`inval
      ensures Valid() && qlist == Without(old(qlist), (q: Query) => q.sck == s)
    {
      hide Without;
      ghost var drop := (q: Query) => q.sck == s;
      WithoutEmpty(drop);
      ghost var all := qlist;
      var le := false;
      ghost var done := 0;
      var i := 0;
      assert all[..0] == [] && qlist[..0] == [];
      while i < |qlist|
        invariant i <= |qlist| && done <= |all| && qlist[i..] == all[done..]
        invariant qlist[..i] == Without(all[..done], drop)
        invariant (le || |qlist| == |all|) && inval == old(inval)
        decreases |all| - done
      {
        EraseTurn(all, qlist, i, done, drop);
        if qlist[i].sck == s {
          le := true;
          qlist := qlist[..i] + qlist[i + 1..];
        } else {
          i := i + 1;
        }
        done := done + 1;
      }
      assert qlist[..i] == qlist && all[..done] == all;
      if le {
        inval := true;
      }
    }
  }

  // `std::vector::resize`.
  function Resized(s: seq<PollFd>, n: nat): (r: seq<PollFd>)
    ensures |r| == n
  {
    if n <= |s| then s[..n] else s + seq(n - |s|, _ => PollFd(0, 0))
  }

  // ---- The registry ----

  // The query a registered system has: its own socket, for reading, with its own callback.
  function QueryOf(p: Native, e: Callback): Query { Query(e.sys, QueryTypeToNative(p, READ), e) }

  function Image(p: Native, s: seq<Callback>): seq<Query> {
    if |s| == 0 then [] else Image(p, s[1..]) + [QueryOf(p, s[0])]
  }

  /** The queries are the systems in reverse, each bound to its system. */
  lemma {:induction false} ImageAt(p: Native, s: seq<Callback>, k: nat)
    requires k < |s|
    ensures |Image(p, s)| == |s| && Image(p, s)[|s| - 1 - k] == QueryOf(p, s[k])
  {
    if |s| > 1 {
      ImageAt(p, s[1..], if k == 0 then 0 else k - 1);
    }
  }

  lemma {:induction false} ImageWithout(p: Native, s: seq<Callback>, x: System)
    ensures Without(Image(p, s), (q: Query) => q.sck == x) == Image(p, Without(s, (e: Callback) => e.sys == x))
  {
    var dropQ, dropE := (q: Query) => q.sck == x, (e: Callback) => e.sys == x;
    if |s| > 0 {
      var t := s[1..];
      assert s == [s[0]] + t;
      ImageWithout(p, t, x);
      WithoutConcat(Image(p, t), [QueryOf(p, s[0])], dropQ);
      WithoutConcat([s[0]], t, dropE);
      WithoutOne(QueryOf(p, s[0]), dropQ);
      WithoutOne(s[0], dropE);
      if s[0].sys != x {
        assert ([s[0]] + Without(t, dropE))[1..] == Without(t, dropE);
      } else {
        assert [] + Without(t, dropE) == Without(t, dropE);
      }
    }
  }

  lemma WithoutOne<T>(x: T, drop: T -> bool)
    ensures Without([x], drop) == if drop(x) then [] else [x]
  {
    assert Without([x][..0], drop) == [];
  }

  ghost predicate Registered(s: seq<Callback>, x: System) { exists e :: e in s && e.sys == x }

  class Registry {
    var systems: seq<Callback>
    const systemquery: NetworkQuery

    ghost predicate Valid()
      reads this, systemquery
    {
      systemquery.Valid() && systemquery.qlist == Image(systemquery.platform, systems)
    }

    constructor (p: Native)
      ensures Valid() && systems == [] && fresh(systemquery)
    {
      systems := [];
      systemquery := new NetworkQuery(p);
    }

    /** The registry part of `InitSystem`: -1 without a change if the system is there already. */
    method InitSystem(sys: System) returns (r: int)
      requires Valid()
      modifies this`systems, systemquery
      ensures Valid()
      ensures r == if Registered(old(systems), sys) then -1 else 0
      ensures r == -1 ==> systems == old(systems) && systemquery.qlist == old(systemquery.qlist)
      ensures r == 0 ==> |systems| == |old(systems)| + 1 && systems[1..] == old(systems)
                         && fresh(systems[0]) && systems[0].sys == sys
      ensures r == 0 ==> systemquery.qlist == old(systemquery.qlist) + [Query(sys, systemquery.platform.rd, systems[0])]
    {
      ReadOnly(systemquery.platform);
      var i := 0;
      while i < |systems|
        invariant i <= |systems| && forall k :: 0 <= k < i ==> systems[k].sys != sys
      {
        if systems[i].sys == sys {
          return -1;
        }
        i := i + 1;
      }
      var eco := new Callback(sys);
      systems := [eco] + systems;
      assert systems[1..] == old(systems);
      systemquery.Add(sys, READ, systems[0]);
      r := 0;
    }

    /** The registry part of `DeinitSystem`: every entry of the system goes, and its query. */
    method DeinitSystem(sys: System)
      requires Valid()
      modifies this`systems, systemquery
      ensures Valid()
      ensures systems == Without(old(systems), (e: Callback) => e.sys == sys) && !Registered(systems, sys)
    {
      hide Without, Image;
      ghost var drop := (e: Callback) => e.sys == sys;
      WithoutEmpty(drop);
      ghost var all := systems;
      ghost var queries := systemquery.qlist;
      ghost var dropQ := (q: Query) => q.sck == sys;
      ghost var done := 0;
      ghost var removed := false;
      var i := 0;
      assert all[..0] == [] && systems[..0] == [];
      while i < |systems|
        invariant i <= |systems| && done <= |all| && systems[i..] == all[done..]
        invariant systems[..i] == Without(all[..done], drop)
        invariant systemquery.Valid()
        invariant systemquery.qlist == if removed then Without(queries, dropQ) else queries
        invariant !removed ==> forall k :: 0 <= k < done ==> !drop(all[k])
        decreases |all| - done
      {
        EraseTurn(all, systems, i, done, drop);
        if systems[i].sys == sys {
          systemquery.Remove(sys);
          WithoutTwice(queries, dropQ);
          removed := true;
          systems := systems[..i] + systems[i + 1..];
        } else {
          i := i + 1;
        }
        done := done + 1;
      }
      assert systems[..i] == systems && all[..done] == all;
      ImageWithout(systemquery.platform, all, sys);
      WithoutMembers(all, drop);
      if !removed {
        WithoutNone(all, drop);
      }
    }
  }

  lemma WithoutTwice<T>(s: seq<T>, drop: T -> bool)
    ensures Without(Without(s, drop), drop) == Without(s, drop)
  {
    WithoutMembers(s, drop);
    WithoutNone(Without(s, drop), drop);
  }
}
