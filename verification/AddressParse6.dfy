/** `ip6` of src/network.cpp: what it reads, where it writes past the groups, and what it makes of
    a double colon. */
module AddressParse6 {
  import opened MachineTypes
  import opened NumberText
  import opened AddressText

  // `ltype` is 1 after a digit and 2 after a colon; `xpand` is the place of a double colon, and
  // `bad` says that a second one made the parser give up.
  datatype Parse6 = Parse6(aa: seq<uint16>, sect: nat, ev: uint16, ltype: nat, xpand: nat, bad: bool)

  // What `ip6` does to the eight groups: a full address, no change, or a write behind the last one.
  datatype Result6 = Address(aa: seq<uint16>) | Unchanged | OutOfBounds

  const FILL: uint16 := 0xfefe

  function HexValue(c: char): Option<nat> {
    if '0' <= c <= '9' then Some((c - '0') as nat)
    else if 'A' <= c <= 'F' then Some((c - 'A') as nat + 10)
    else if 'a' <= c <= 'f' then Some((c - 'a') as nat + 10)
    else None
  }

  function Colon(st: Parse6): (r: Parse6)
    requires |st.aa| == 8 && st.sect < 8
    ensures |r.aa| == 8 && r.sect <= 8
  {
    var st' := st.(aa := st.aa[st.sect := st.ev], ev := 0, sect := st.sect + 1);
    if st.ltype == 2 && st.xpand != 0 then st'.(bad := true)
    else if st.ltype == 2 then st'.(xpand := st.sect, ltype := 2)
    else st'.(ltype := 2)
  }

  function Step6(st: Parse6, c: char): (r: Parse6)
    requires |st.aa| == 8 && st.sect <= 8
    ensures |r.aa| == 8 && r.sect <= 8
  {
    if st.sect >= 8 || st.bad then st
    else match HexValue(c)
      case Some(d) => st.(ev := (st.ev * 16 + d) % 0x1_0000, ltype := 1)
      case None => if c == ':' then Colon(st) else st.(ltype := 0)
  }

  function Scan6(t: string, st: Parse6): (r: Parse6)
    requires |st.aa| == 8 && st.sect <= 8
    ensures |r.aa| == 8 && r.sect <= 8
  {
    if |t| == 0 then st else Step6(Scan6(t[..|t| - 1], st), t[|t| - 1])
  }

  // The groups from `at` on move to the end; the gap is filled.
  function Expand(aa: seq<uint16>, sect: nat, at: nat): (r: seq<uint16>)
    requires |aa| == 8 && at <= sect <= 7
    ensures |r| == 8
  {
    aa[..at] + seq(7 - sect, _ => FILL) + aa[at..sect + 1]
  }

  function Finish6(st: Parse6): Result6
    requires Parsing(st)
  {
    if st.bad then Unchanged
    else if st.sect == 8 then OutOfBounds
    else
      var aa := st.aa[st.sect := st.ev];
      if st.xpand != 0 && st.xpand < 8 then Address(Expand(aa, st.sect, st.xpand)) else Address(aa)
  }

  function Begin(was: seq<uint16>): Parse6 { Parse6(was, 0, 0, 0, 0, false) }

  predicate Parsing(st: Parse6) { |st.aa| == 8 && st.sect <= 8 && (st.xpand == 0 || st.xpand < st.sect) }

  lemma {:induction false} Scan6Parsing(t: string, st: Parse6)
    requires Parsing(st)
    ensures Parsing(Scan6(t, st))
  {
    if |t| > 0 {
      Scan6Parsing(t[..|t| - 1], st);
    }
  }

  lemma {:induction false} Scan6Concat(t: string, u: string, st: Parse6)
    requires |st.aa| == 8 && st.sect <= 8
    ensures Scan6(t + u, st) == Scan6(u, Scan6(t, st))
  {
    if |u| == 0 {
      assert t + u == t;
    } else {
      assert (t + u)[..|t + u| - 1] == t + u[..|u| - 1];
      Scan6Concat(t, u[..|u| - 1], st);
    }
  }

  lemma {:induction false} Scan6Stops(t: string, st: Parse6)
    requires |st.aa| == 8 && st.sect <= 8 && (st.sect == 8 || st.bad)
    ensures Scan6(t, st) == st
  {
    if |t| > 0 {
      Scan6Stops(t[..|t| - 1], st);
    }
  }

  lemma Scan6One(c: char, st: Parse6)
    requires |st.aa| == 8 && st.sect <= 8
    ensures Scan6([c], st) == Step6(st, c)
  {
    assert [c][..0] == [];
  }

  // ---- The procedure ----

  /** `ip6`; `was` is what the address held before. */
  method Ip6(txtd: string, was: seq<uint16>) returns (r: Result6)
    requires |was| == 8
    ensures Parsing(Scan6(txtd, Begin(was))) && r == Finish6(Scan6(txtd, Begin(was)))
  {
    hide Step6, Scan6, Expand;
    Scan6Parsing(txtd, Begin(was));
    var aa6: seq<uint16>, ipev: uint16 := was, 0;
    var i, sect: nat, xpand, ltype := 0, 0, 0, 0;
    ScanNothing(was, txtd);
    while i < |txtd| && sect < 8
      invariant i <= |txtd| && |aa6| == 8 && sect <= 8 && (xpand == 0 || 0 < xpand < sect)
      invariant Scan6(txtd[..i], Begin(was)) == Parse6(aa6, sect, ipev, ltype, xpand, false)
    {
      var cc := txtd[i];
      ScanNext(txtd, i, Begin(was));
      Step6Is(Parse6(aa6, sect, ipev, ltype, xpand, false), cc);
      var hex := HexValue(cc);
      if hex.Some? {
        ipev := (ipev * 16 + hex.value) % 0x1_0000;
        ltype := 1;
      } else if cc == ':' {
        aa6 := aa6[sect := ipev];
        ipev := 0;
        sect := sect + 1;
        if ltype == 2 {
          if xpand == 0 {
            xpand := sect - 1;
          } else {
            ScanRest(txtd, i + 1, Begin(was));
            return Unchanged;
          }
        }
        ltype := 2;
      } else {
        ltype := 0;
      }
      i := i + 1;
    }
    ScanRest(txtd, i, Begin(was));
    if sect == 8 {
      return OutOfBounds;
    }
    aa6 := aa6[sect := ipev];
    if xpand != 0 && xpand < 8 {
      aa6 := ExpandInPlace(aa6, sect, xpand);
    }
    r := Address(aa6);
  }

  // The two loops at the end.
  method ExpandInPlace(groups: seq<uint16>, sect: nat, xpand: nat) returns (aa6: seq<uint16>)
    requires |groups| == 8 && 0 < xpand <= sect <= 7
    ensures aa6 == Expand(groups, sect, xpand)
  {
    aa6 := groups;
    var xofs := 7 - sect;
    var i := 7;
    while i - xofs >= xpand
      invariant xpand + xofs - 1 <= i <= 7 && |aa6| == 8
      invariant forall k :: 0 <= k <= i ==> aa6[k] == groups[k]
      invariant forall k :: i < k < 8 ==> aa6[k] == groups[k - xofs]
    {
      aa6 := aa6[i := aa6[i - xofs]];
      i := i - 1;
    }
    while i >= xpand
      invariant xpand - 1 <= i <= xpand + xofs - 1 && |aa6| == 8
      invariant forall k :: 0 <= k <= i ==> aa6[k] == groups[k]
      invariant forall k :: i < k < xpand + xofs ==> aa6[k] == FILL
      invariant forall k :: xpand + xofs <= k < 8 ==> aa6[k] == groups[k - xofs]
    {
      aa6 := aa6[i := FILL];
      i := i - 1;
    }
  }

  lemma ScanNothing(was: seq<uint16>, t: string)
    requires |was| == 8
    ensures Scan6(t[..0], Begin(was)) == Begin(was)
  {}

  lemma ScanNext(t: string, i: nat, st: Parse6)
    requires |st.aa| == 8 && st.sect <= 8 && i < |t|
    ensures Scan6(t[..i + 1], st) == Step6(Scan6(t[..i], st), t[i])
  {
    assert t[..i + 1][..i] == t[..i];
  }

  lemma ScanRest(t: string, i: nat, st: Parse6)
    requires |st.aa| == 8 && st.sect <= 8 && i <= |t|
    requires i == |t| || Scan6(t[..i], st).sect == 8 || Scan6(t[..i], st).bad
    ensures Scan6(t, st) == Scan6(t[..i], st)
  {
    assert t == t[..i] + t[i..];
    Scan6Concat(t[..i], t[i..], st);
    if i < |t| {
      Scan6Stops(t[i..], Scan6(t[..i], st));
    } else {
      assert t[..i] == t;
    }
  }

  lemma Step6Is(st: Parse6, c: char)
    requires |st.aa| == 8 && st.sect < 8 && !st.bad
    ensures HexValue(c).Some? ==> Step6(st, c) == st.(ev := (st.ev * 16 + HexValue(c).value) % 0x1_0000, ltype := 1)
    ensures HexValue(c).None? && c == ':' ==> Step6(st, c) == Colon(st)
    ensures HexValue(c).None? && c != ':' ==> Step6(st, c) == st.(ltype := 0)
  {}

  // ---- What it reads ----

  function Colons(t: string): nat {
    if |t| == 0 then 0 else Colons(t[..|t| - 1]) + if t[|t| - 1] == ':' then 1 else 0
  }

  predicate EndsInColon(t: string) { |t| > 0 && t[|t| - 1] == ':' }

  // The places where two colons stand next to each other; three in a row make two.
  function Pairs(t: string): nat {
    if |t| == 0 then 0
    else Pairs(t[..|t| - 1]) + if t[|t| - 1] == ':' && EndsInColon(t[..|t| - 1]) then 1 else 0
  }

  // What the parser knows of a text with at most eight colons.
  ghost predicate Knows(st: Parse6, t: string) {
    && (st.bad <==> Pairs(t) >= 2)
    && (!st.bad ==> st.sect == Colons(t) && (st.xpand != 0 <==> Pairs(t) >= 1))
    && (!st.bad && st.sect < 8 ==> (st.ltype == 2 <==> EndsInColon(t)))
  }

  lemma {:induction false} ParserKnows(t: string, was: seq<uint16>)
    requires |was| == 8 && Colons(t) <= 8
    ensures Knows(Scan6(t, Begin(was)), t)
  {
    if |t| > 0 {
      ParserKnows(t[..|t| - 1], was);
      if EndsInColon(t[..|t| - 1]) {
        assert Colons(t[..|t| - 1]) >= 1;
      }
    }
  }

  // The front of a text up to its eighth colon.
  lemma {:induction false} EighthColon(t: string) returns (n: nat)
    requires Colons(t) >= 8
    ensures n <= |t| && Colons(t[..n]) == 8
  {
    n := |t|;
    assert t[..n] == t;
    if Colons(t) > 8 {
      n := EighthColon(t[..|t| - 1]);
      assert t[..|t| - 1][..n] == t[..n];
    }
  }

  /** `ip6` writes behind the eight groups exactly when the text has an eighth colon and at most one
      pair of adjacent colons up to there. */
  lemma OverrunIff(t: string, was: seq<uint16>)
    requires |was| == 8
    ensures Parsing(Scan6(t, Begin(was)))
    ensures Finish6(Scan6(t, Begin(was))) == OutOfBounds
       <==> exists n :: 0 <= n <= |t| && Colons(t[..n]) == 8 && Pairs(t[..n]) <= 1
  {
    hide Scan6, Expand;
    Scan6Parsing(t, Begin(was));
    if n :| 0 <= n <= |t| && Colons(t[..n]) == 8 && Pairs(t[..n]) <= 1 {
      ParserKnows(t[..n], was);
      ScanRest(t, n, Begin(was));
    }
    if Scan6(t, Begin(was)).sect == 8 && !Scan6(t, Begin(was)).bad {
      var n := FrontOf(t, was);
      ParserKnows(t[..n], was);
    }
  }

  /** It leaves the address alone exactly when a second pair of adjacent colons stands within the
      first eight colons. */
  lemma UnchangedIff(t: string, was: seq<uint16>)
    requires |was| == 8
    ensures Parsing(Scan6(t, Begin(was)))
    ensures Finish6(Scan6(t, Begin(was))) == Unchanged
       <==> exists n :: 0 <= n <= |t| && Colons(t[..n]) <= 8 && Pairs(t[..n]) >= 2
  {
    hide Scan6, Expand;
    Scan6Parsing(t, Begin(was));
    if n :| 0 <= n <= |t| && Colons(t[..n]) <= 8 && Pairs(t[..n]) >= 2 {
      ParserKnows(t[..n], was);
      ScanRest(t, n, Begin(was));
    }
    if Scan6(t, Begin(was)).bad {
      var n := FrontOf(t, was);
      ParserKnows(t[..n], was);
    }
  }

  // The part of the text that decides: all of it, or the part up to the eighth colon.
  lemma FrontOf(t: string, was: seq<uint16>) returns (n: nat)
    requires |was| == 8
    ensures n <= |t| && Colons(t[..n]) <= 8 && Scan6(t[..n], Begin(was)) == Scan6(t, Begin(was))
  {
    hide Scan6;
    n := |t|;
    assert t[..n] == t;
    if Colons(t) > 8 {
      n := EighthColon(t);
      ParserKnows(t[..n], was);
      ScanRest(t, n, Begin(was));
    }
  }

  lemma HexDigit(d: nat)
    requires d < 16
    ensures HexValue(Digit(d)) == Some(d)
  {}

  lemma HexSplit(n: nat, room: nat)
    requires 0 < n < Power(16, room)
    ensures room > 0 && n == Rest(n, 16) * 16 + Last(n, 16) && Rest(n, 16) < Power(16, room - 1) && Rest(n, 16) <= n
  {}

  lemma GroupScanned(g: uint16, st: Parse6)
    requires |st.aa| == 8 && st.sect < 8 && !st.bad && st.ev == 0
    ensures Scan6(Group(g), st) == st.(ev := g, ltype := 1)
  {
    hide Low16;
    if g == 0 {
      Scan6One('0', st);
      assert Group(g) == ['0'];
    } else {
      BigPower();
      LongGroup(g, 9, st);
      SmallLow16(g);
      assert "" + LowDigits(g, 16, 9) == LowDigits(g, 16, 9);
    }
  }

  lemma BigPower()
    ensures Power(16, 9) >= 0x1_0000
  {
    assert Power(16, 1) == 16 && Power(16, 2) == 256 && Power(16, 3) == 4096 && Power(16, 4) == 0x1_0000;
    assert Power(16, 5) >= 0x1_0000 && Power(16, 6) >= 0x1_0000 && Power(16, 7) >= 0x1_0000 && Power(16, 8) >= 0x1_0000;
  }

  // Groups with single colons: all but the last are stored, the last is in hand.
  lemma {:induction false} GroupsScanned(gs: seq<uint16>, st: Parse6)
    requires |st.aa| == 8 && !st.bad && st.ev == 0 && 1 <= |gs| && st.sect + |gs| <= 8
    ensures var m := |gs| - 1;
            Scan6(Groups(gs), st)
                == st.(aa := Put(st.aa, st.sect, gs[..m]), sect := st.sect + m, ev := gs[m], ltype := 1)
  {
    hide Group, Scan6;
    var m := |gs| - 1;
    if m == 0 {
      GroupScanned(gs[0], st);
      assert Put(st.aa, st.sect, []) == st.aa;
    } else {
      var front := gs[..m];
      GroupsScanned(front, st);
      var mid := st.(aa := Put(st.aa, st.sect, front[..m - 1]), sect := st.sect + m - 1,
                     ev := front[m - 1], ltype := 1);
      Scan6Concat(Groups(front), ":" + Group(gs[m]), st);
      Scan6Concat(":", Group(gs[m]), mid);
      Scan6One(':', mid);
      PlacedNext(st.aa, st.sect, front);
      GroupScanned(gs[m], Colon(mid));
    }
  }

  lemma PlacedNext(aa: seq<uint16>, at: nat, gs: seq<uint16>)
    requires |gs| >= 1 && at + |gs| <= |aa|
    ensures Put(aa, at, gs[..|gs| - 1])[at + |gs| - 1 := gs[|gs| - 1]] == Put(aa, at, gs)
  {}

  /** The text of `to_string` up to the bracket is read back, for every address. */
  lemma Ip6RoundTrip(aa: seq<uint16>, was: seq<uint16>)
    requires |aa| == |was| == 8
    ensures Parsing(Scan6("[" + Groups(aa) + "]", Begin(was)))
    ensures Finish6(Scan6("[" + Groups(aa) + "]", Begin(was))) == Address(aa)
  {
    hide Groups, Scan6, Expand;
    BracketScanned(aa, was);
    assert Put(was, 0, aa[..7])[7 := aa[7]] == aa;
  }

  lemma OtherScanned(c: char, st: Parse6)
    requires |st.aa| == 8 && st.sect < 8 && !st.bad && HexValue(c).None? && c != ':'
    ensures Scan6([c], st) == st.(ltype := 0)
  {
    Scan6One(c, st);
  }

  lemma BracketScanned(aa: seq<uint16>, was: seq<uint16>)
    requires |aa| == |was| == 8
    ensures Scan6("[" + Groups(aa) + "]", Begin(was)) == Parse6(Put(was, 0, aa[..7]), 7, aa[7], 0, 0, false)
  {
    hide Groups, Scan6, Put, Step6;
    var st := Begin(was);
    Scan6Concat("[" + Groups(aa), "]", st);
    Scan6Concat("[", Groups(aa), st);
    OtherScanned('[', st);
    GroupsScanned(aa, st);
    OtherScanned(']', Parse6(Put(was, 0, aa[..7]), 7, aa[7], 1, 0, false));
  }

  /** The whole text of `to_string`, with the port, always makes it write past the end. */
  lemma PrintedTextOverruns(aa: seq<uint16>, port: uint16, was: seq<uint16>)
    requires |aa| == |was| == 8
    ensures Parsing(Scan6(Text6(aa, port), Begin(was)))
    ensures Finish6(Scan6(Text6(aa, port), Begin(was))) == OutOfBounds
  {
    hide Groups, Scan6, PortText;
    var st := Parse6(Put(was, 0, aa[..7]), 7, aa[7], 0, 0, false);
    BracketScanned(aa, was);
    Scan6Concat("[" + Groups(aa) + "]", ":" + PortText(port), Begin(was));
    Scan6Concat(":", PortText(port), st);
    Scan6One(':', st);
    Scan6Stops(PortText(port), Colon(st));
  }

  // ---- The double colon ----

  function ZerosBetween(left: seq<uint16>, right: seq<uint16>): (aa: seq<uint16>)
    requires |left| + |right| <= 8
    ensures |aa| == 8
  {
    left + seq(8 - |left| - |right|, _ => 0) + right
  }

  lemma DoubleColonScanned(left: seq<uint16>, right: seq<uint16>, was: seq<uint16>)
    requires |was| == 8 && |left| >= 1 && |right| >= 1 && |left| + |right| <= 7
    ensures Scan6(Groups(left) + "::" + Groups(right), Begin(was))
         == Parse6(Put(Put(was, 0, left + [0]), |left| + 1, right[..|right| - 1]),
                   |left| + |right|, right[|right| - 1], 1, |left|, false)
  {
    hide Groups, Scan6;
    var st, n, m := Begin(was), |left|, |right| - 1;
    Scan6Concat(Groups(left) + "::", Groups(right), st);
    Scan6Concat(Groups(left), "::", st);
    GroupsScanned(left, st);
    var s1 := st.(aa := Put(was, 0, left[..n - 1]), sect := n - 1, ev := left[n - 1], ltype := 1);
    assert "::" == ":" + ":";
    Scan6Concat(":", ":", s1);
    Scan6One(':', s1);
    PlacedNext(was, 0, left);
    var s2 := Parse6(Put(was, 0, left), n, 0, 2, 0, false);
    Scan6One(':', s2);
    assert (left + [0])[..n] == left;
    PlacedNext(was, 0, left + [0]);
    GroupsScanned(right, Parse6(Put(was, 0, left + [0]), n + 1, 0, 2, n, false));
  }

  /** What a double colon between groups becomes. It stands for zeros; only the last of these is
      stored as one, so the address is right exactly when it stands for a single group. */
  lemma DoubleColon(left: seq<uint16>, right: seq<uint16>, was: seq<uint16>)
    requires |was| == 8 && |left| >= 1 && |right| >= 1 && |left| + |right| <= 7
    ensures var t, gap := Groups(left) + "::" + Groups(right), 7 - |left| - |right|;
            && Parsing(Scan6(t, Begin(was)))
            && Finish6(Scan6(t, Begin(was))) == Address(left + seq(gap, _ => FILL) + [0] + right)
            && (Finish6(Scan6(t, Begin(was))) == Address(ZerosBetween(left, right)) <==> gap == 0)
  {
    hide Groups, Scan6, Put, Expand;
    DoubleColonScanned(left, right, was);
    DoubleColonExpands(left, right, was);
  }

  lemma DoubleColonExpands(left: seq<uint16>, right: seq<uint16>, was: seq<uint16>)
    requires |was| == 8 && |left| >= 1 && |right| >= 1 && |left| + |right| <= 7
    ensures var n, m, gap := |left|, |right| - 1, 7 - |left| - |right|;
            var aa := Put(Put(was, 0, left + [0]), n + 1, right[..m])[n + 1 + m := right[m]];
            var r := left + seq(gap, _ => FILL) + [0] + right;
            && Expand(aa, n + 1 + m, n) == r
            && (r == ZerosBetween(left, right) <==> gap == 0)
  {
    var n, m, gap := |left|, |right| - 1, 7 - |left| - |right|;
    var before := Put(was, 0, left + [0]);
    PlacedNext(before, n + 1, right);
    var aa := Put(before, n + 1, right);
    assert aa[..n] == left;
    assert aa[n..n + 1 + m + 1] == [0] + right;
    GapIs(left, right);
    assert left + seq(gap, _ => FILL) + ([0] + right) == left + seq(gap, _ => FILL) + [0] + right;
  }

  lemma GapIs(left: seq<uint16>, right: seq<uint16>)
    requires |left| + |right| <= 7
    ensures var gap := 7 - |left| - |right|;
            left + seq(gap, _ => FILL) + [0] + right == ZerosBetween(left, right) <==> gap == 0
  {
    var gap := 7 - |left| - |right|;
    var r := left + seq(gap, _ => FILL) + [0] + right;
    if gap > 0 {
      assert r[|left|] == FILL && ZerosBetween(left, right)[|left|] == 0;
    } else {
      assert r == ZerosBetween(left, right);
    }
  }

  /** A double colon at the front: an overrun if it stands for one group, right exactly when it
      stands for two. */
  lemma DoubleColonFirst(right: seq<uint16>, was: seq<uint16>)
    requires |was| == 8 && 1 <= |right| <= 7
    ensures var t, gap := "::" + Groups(right), 6 - |right|;
            && Parsing(Scan6(t, Begin(was)))
            && (gap < 0 ==> Finish6(Scan6(t, Begin(was))) == OutOfBounds)
            && (gap >= 0 ==> Finish6(Scan6(t, Begin(was))) == Address([0] + seq(gap, _ => FILL) + [0] + right))
            && (Finish6(Scan6(t, Begin(was))) == Address(ZerosBetween([], right)) <==> gap == 0)
  {
    hide Groups, Scan6, Put, Expand;
    var m := |right| - 1;
    var s2 := TwoColons(Begin(was));
    Scan6Concat("::", Groups(right), Begin(was));
    if |right| <= 6 {
      GroupsScanned(right, s2);
      FirstExpands(right, was);
    } else {
      GroupsOverrun(right, s2);
    }
  }

  lemma TwoColons(st: Parse6) returns (s2: Parse6)
    requires |st.aa| == 8 && st.sect < 7 && !st.bad && st.xpand == 0 && st.ltype != 2
    ensures s2 == Parse6(st.aa[st.sect := st.ev][st.sect + 1 := 0], st.sect + 2, 0, 2, st.sect + 1, false)
    ensures Scan6("::", st) == s2
  {
    hide Scan6;
    assert "::" == ":" + ":";
    Scan6Concat(":", ":", st);
    Scan6One(':', st);
    s2 := Colon(Colon(st));
    Scan6One(':', Colon(st));
  }

  // One group more than there is room for: the colon before it is the eighth.
  lemma GroupsOverrun(gs: seq<uint16>, st: Parse6)
    requires |st.aa| == 8 && !st.bad && st.ev == 0 && 2 <= |gs| && st.sect + |gs| == 9
    ensures var r := Scan6(Groups(gs), st); r.sect == 8 && !r.bad && r.xpand == st.xpand
  {
    hide Group, Scan6;
    var m := |gs| - 1;
    var front := gs[..m];
    GroupsScanned(front, st);
    var mid := st.(aa := Put(st.aa, st.sect, front[..m - 1]), sect := 7, ev := front[m - 1], ltype := 1);
    Scan6Concat(Groups(front), ":" + Group(gs[m]), st);
    Scan6Concat(":", Group(gs[m]), mid);
    Scan6One(':', mid);
    Scan6Stops(Group(gs[m]), Colon(mid));
  }

  lemma FirstExpands(right: seq<uint16>, was: seq<uint16>)
    requires |was| == 8 && 1 <= |right| <= 6
    ensures var m, gap := |right| - 1, 6 - |right|;
            var aa := Put(was[0 := 0][1 := 0], 2, right[..m])[2 + m := right[m]];
            var r := [0] + seq(gap, _ => FILL) + [0] + right;
            && Expand(aa, 2 + m, 1) == r
            && (r == ZerosBetween([], right) <==> gap == 0)
  {
    var m, gap := |right| - 1, 6 - |right|;
    PlacedNext(was[0 := 0][1 := 0], 2, right);
    var aa := Put(was[0 := 0][1 := 0], 2, right);
    assert aa[..1] == [0] && aa[1..2 + m + 1] == [0] + right;
    var r := [0] + seq(gap, _ => FILL) + [0] + right;
    assert [0] + seq(gap, _ => FILL) + ([0] + right) == r;
    if gap > 0 {
      assert r[1] == FILL && ZerosBetween([], right)[1] == 0;
    } else {
      assert r == ZerosBetween([], right);
    }
  }

  /** A double colon at the end: the same. */
  lemma DoubleColonLast(left: seq<uint16>, was: seq<uint16>)
    requires |was| == 8 && 1 <= |left| <= 7
    ensures var t, gap := Groups(left) + "::", 6 - |left|;
            && Parsing(Scan6(t, Begin(was)))
            && (gap < 0 ==> Finish6(Scan6(t, Begin(was))) == OutOfBounds)
            && (gap >= 0 ==> Finish6(Scan6(t, Begin(was))) == Address(left + seq(gap, _ => FILL) + [0, 0]))
            && (Finish6(Scan6(t, Begin(was))) == Address(ZerosBetween(left, [])) <==> gap == 0)
  {
    hide Groups, Scan6, Put, Expand;
    var n := |left|;
    Scan6Concat(Groups(left), "::", Begin(was));
    GroupsScanned(left, Begin(was));
    var s1 := Begin(was).(aa := Put(was, 0, left[..n - 1]), sect := n - 1, ev := left[n - 1], ltype := 1);
    var s2 := TwoColons(s1);
    PlacedNext(was, 0, left);
    if n <= 6 {
      LastExpands(left, was);
    }
  }

  lemma LastExpands(left: seq<uint16>, was: seq<uint16>)
    requires |was| == 8 && 1 <= |left| <= 6
    ensures var n, gap := |left|, 6 - |left|;
            var aa := Put(was, 0, left)[n := 0][n + 1 := 0];
            var r := left + seq(gap, _ => FILL) + [0, 0];
            && Expand(aa, n + 1, n) == r
            && (r == ZerosBetween(left, []) <==> gap == 0)
  {
    var n, gap := |left|, 6 - |left|;
    var aa := Put(was, 0, left)[n := 0][n + 1 := 0];
    assert aa[..n] == left && aa[n..n + 2] == [0, 0];
    var r := left + seq(gap, _ => FILL) + [0, 0];
    if gap > 0 {
      assert r[n] == FILL && ZerosBetween(left, [])[n] == 0;
    } else {
      assert r == ZerosBetween(left, []);
    }
  }

  /** And alone, where it stands for all eight groups, it is never right. */
  lemma DoubleColonOnly(was: seq<uint16>)
    requires |was| == 8
    ensures Parsing(Scan6("::", Begin(was)))
    ensures Finish6(Scan6("::", Begin(was))) == Address([0, FILL, FILL, FILL, FILL, FILL, 0, 0])
  {
    hide Scan6;
    var s2 := TwoColons(Begin(was));
    var aa := was[0 := 0][1 := 0][2 := 0];
    assert aa[..1] == [0] && aa[1..3] == [0, 0];
  }

  // ---- Upper case, and groups that are too long ----

  function UpperChar(c: char): char { if 'a' <= c <= 'z' then c - 'a' + 'A' else c }

  function Upper(t: string): (u: string)
    ensures |u| == |t| && forall k :: 0 <= k < |t| ==> u[k] == UpperChar(t[k])
  {
    seq(|t|, k requires 0 <= k < |t| => UpperChar(t[k]))
  }

  lemma UpperHex(c: char)
    ensures HexValue(UpperChar(c)) == HexValue(c) && (UpperChar(c) == ':' <==> c == ':')
  {}

  /** Letters may be upper case: from any state, every text is read as the same text in capitals. */
  lemma {:induction false} UpperReads(t: string, st: Parse6)
    requires |st.aa| == 8 && st.sect <= 8
    ensures Scan6(Upper(t), st) == Scan6(t, st)
  {
    hide HexValue, UpperChar;
    if |t| > 0 {
      UpperReads(t[..|t| - 1], st);
      assert Upper(t)[..|t| - 1] == Upper(t[..|t| - 1]);
      UpperHex(t[|t| - 1]);
    }
  }

  function Low16(n: nat): uint16 { n % 0x1_0000 }

  /** A group of more than four digits counts modulo 2^16: its last four digits are what is stored. */
  lemma {:induction false} LongGroup(n: nat, room: nat, st: Parse6)
    requires |st.aa| == 8 && st.sect < 8 && !st.bad && st.ev == 0 && 0 < n < Power(16, room)
    ensures Scan6(LowDigits(n, 16, room), st) == st.(ev := Low16(n), ltype := 1)
    decreases room
  {
    hide Last, Rest, LowDigits, Power, Digit, HexValue, Low16;
    HexSplit(n, room);
    LowDigitsNext(n, 16, room);
    var t, d := LowDigits(Rest(n, 16), 16, room - 1), Last(n, 16);
    assert (t + [Digit(d)])[..|t|] == t;
    HexDigit(d);
    NextLow16(Rest(n, 16), d);
    if Rest(n, 16) > 0 {
      LongGroup(Rest(n, 16), room - 1, st);
    } else {
      NoDigits(0, 16, room - 1);
    }
  }

  lemma SmallLow16(n: nat)
    requires n < 0x1_0000
    ensures Low16(n) == n
  {}

  lemma NextLow16(n: nat, d: nat)
    ensures (Low16(n) as int * 16 + d) % 0x1_0000 == Low16(n * 16 + d) && (n == 0 ==> Low16(n) == 0)
  {
    assert n * 16 + d == (n % 0x1_0000) * 16 + d + 0x1_0000 * (n / 0x1_0000 * 16);
    SameLow16(n % 0x1_0000 * 16 + d, n / 0x1_0000 * 16);
  }

  lemma SameLow16(x: nat, k: nat)
    ensures (x + 0x1_0000 * k) % 0x1_0000 == x % 0x1_0000
  {}
}
