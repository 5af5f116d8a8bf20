/** Printing and parsing of addresses (src/network.cpp): `to_string`, `ip4` and `ip6`. */
module AddressText {
  import opened MachineTypes
  import opened NumberText

  // ---- The texts ----

  // An octet as `to_string` writes it, and a number in its ten-character buffer.
  function Octet(k: uint8): string { if k == 0 then "0" else LowDigits(k, 10, 3) }
  function PortText(p: uint16): string { Text(p, 10, 10) }
  function Group(g: uint16): string { Text(g, 10, 16) }

  function Text4(aa: seq<uint8>, port: uint16): string
    requires |aa| == 4
  {
    Octet(aa[0]) + "." + (Octet(aa[1]) + "." + (Octet(aa[2]) + "." + (Octet(aa[3]) + (":" + PortText(port)))))
  }

  function Groups(gs: seq<uint16>): string {
    if |gs| == 0 then ""
    else if |gs| == 1 then Group(gs[0])
    else Groups(gs[..|gs| - 1]) + (":" + Group(gs[|gs| - 1]))
  }

  function Text6(aa: seq<uint16>, port: uint16): string { "[" + Groups(aa) + "]" + (":" + PortText(port)) }

  // ---- Parsing four octets ----

  datatype Parse4 = Parse4(aa: seq<uint8>, sect: nat, ev: uint8)

  predicate IsDigit(c: char) { '0' <= c <= '9' }

  // A character, as long as four sections are not complete; the section value wraps at 256.
  function Step4(st: Parse4, c: char): (r: Parse4)
    requires |st.aa| == 4
    ensures |r.aa| == 4
  {
    if st.sect >= 4 then st
    else if IsDigit(c) then st.(ev := (st.ev as int * 10 + (c - '0') as int) % 0x100)
    else Parse4(st.aa[st.sect := st.ev], st.sect + 1, 0)
  }

  function Scan4(t: string, st: Parse4): (r: Parse4)
    requires |st.aa| == 4
    ensures |r.aa| == 4
  {
    if |t| == 0 then st else Step4(Scan4(t[..|t| - 1], st), t[|t| - 1])
  }

  function Finish4(st: Parse4): seq<uint8>
    requires |st.aa| == 4
  {
    if st.sect < 4 then st.aa[st.sect := st.ev] else st.aa
  }

  lemma {:induction false} Scan4Concat(t: string, u: string, st: Parse4)
    requires |st.aa| == 4
    ensures Scan4(t + u, st) == Scan4(u, Scan4(t, st))
  {
    if |u| == 0 {
      assert t + u == t;
    } else {
      assert (t + u)[..|t + u| - 1] == t + u[..|u| - 1];
      Scan4Concat(t, u[..|u| - 1], st);
    }
  }

  lemma {:induction false} Scan4Stops(t: string, st: Parse4)
    requires |st.aa| == 4 && st.sect >= 4
    ensures Scan4(t, st) == st
  {
    if |t| > 0 {
      Scan4Stops(t[..|t| - 1], st);
    }
  }

  lemma Scan4One(c: char, st: Parse4)
    requires |st.aa| == 4
    ensures Scan4([c], st) == Step4(st, c)
  {
    assert [c][..0] == [];
  }

  /** `ip4`; what the address held before, `was`, stays where the text has no section. */
  method Ip4(txt: string, was: seq<uint8>) returns (aa: seq<uint8>)
    requires |was| == 4
    ensures aa == Finish4(Scan4(txt, Parse4(was, 0, 0)))
  {
    hide Step4;
    aa := was;
    var ipev: uint8, i, sect := 0, 0, 0;
    ghost var start := Parse4(was, 0, 0);
    assert txt[..0] == "";
    while i < |txt| && sect < 4
      invariant i <= |txt| && |aa| == 4 && Scan4(txt[..i], start) == Parse4(aa, sect, ipev)
    {
      assert txt[..i + 1][..i] == txt[..i];
      Step4Is(aa, sect, ipev, txt[i]);
      if '0' <= txt[i] <= '9' {
        ipev := (ipev as int * 10 + (txt[i] - '0') as int) % 0x100;
      } else {
        aa := aa[sect := ipev];
        sect := sect + 1;
        ipev := 0;
      }
      i := i + 1;
    }
    assert txt == txt[..i] + txt[i..];
    Scan4Concat(txt[..i], txt[i..], start);
    if i < |txt| {
      Scan4Stops(txt[i..], Parse4(aa, sect, ipev));
    } else {
      assert txt[i..] == "";
    }
    if sect < 4 {
      aa := aa[sect := ipev];
    }
  }

  lemma Step4Is(aa: seq<uint8>, sect: nat, ev: uint8, c: char)
    requires |aa| == 4 && sect < 4
    ensures IsDigit(c)
            ==> Step4(Parse4(aa, sect, ev), c) == Parse4(aa, sect, (ev as int * 10 + (c - '0') as int) % 0x100)
    ensures !IsDigit(c) ==> Step4(Parse4(aa, sect, ev), c) == Parse4(aa[sect := ev], sect + 1, 0)
  {}

  lemma {:induction false} Scan4Number(n: nat, room: nat, st: Parse4)
    requires |st.aa| == 4 && st.sect < 4 && st.ev == 0 && n < Power(10, room)
    ensures Scan4(LowDigits(n, 10, room), st) == st.(ev := Low8(n))
    decreases room
  {
    hide Last, Rest, Power, Digit, LowDigits, Low8;
    if n > 0 {
      TenSplit(n, room);
      LowDigitsNext(n, 10, room);
      Scan4Number(Rest(n, 10), room - 1, st);
      var t, d := LowDigits(Rest(n, 10), 10, room - 1), Last(n, 10);
      assert (t + [Digit(d)])[..|t|] == t;
      DecimalDigit(d);
      NextLow8(Rest(n, 10), d);
    } else {
      NoDigits(n, 10, room);
      SmallLow8(n);
    }
  }

  function Low8(n: nat): uint8 { n % 0x100 }

  lemma SmallLow8(n: nat)
    requires n < 0x100
    ensures Low8(n) == n
  {}

  lemma TenSplit(n: nat, room: nat)
    requires 0 < n < Power(10, room)
    ensures room > 0 && n == Rest(n, 10) * 10 + Last(n, 10) && Rest(n, 10) < Power(10, room - 1)
  {}

  lemma DecimalDigit(d: nat)
    requires d < 10
    ensures IsDigit(Digit(d)) && (Digit(d) - '0') as int == d
  {}

  lemma NextLow8(n: nat, d: nat)
    ensures (Low8(n) as int * 10 + d) % 0x100 == Low8(n * 10 + d)
  {
    assert n * 10 + d == (n % 0x100) * 10 + d + 0x100 * (n / 0x100 * 10);
    SameLow8(n % 0x100 * 10 + d, n / 0x100 * 10);
  }

  lemma SameLow8(x: nat, k: nat)
    ensures (x + 0x100 * k) % 0x100 == x % 0x100
  {}

  lemma OctetScanned(k: uint8, st: Parse4)
    requires |st.aa| == 4 && st.sect < 4 && st.ev == 0
    ensures Scan4(Octet(k), st) == st.(ev := k)
  {
    if k == 0 {
      Scan4One('0', st);
      assert Octet(k) == ['0'];
    } else {
      assert Power(10, 1) == 10 && Power(10, 2) == 100 && Power(10, 3) == 1000;
      Scan4Number(k, 3, st);
      SmallLow8(k);
    }
  }

  // An octet, its separator, and whatever follows.
  lemma SectionScanned(k: uint8, sep: char, rest: string, st: Parse4)
    requires |st.aa| == 4 && st.sect < 4 && st.ev == 0 && !IsDigit(sep)
    ensures Scan4(Octet(k) + ([sep] + rest), st) == Scan4(rest, Parse4(st.aa[st.sect := k], st.sect + 1, 0))
  {
    Scan4Concat(Octet(k), [sep] + rest, st);
    OctetScanned(k, st);
    Scan4Concat([sep], rest, st.(ev := k));
    Scan4One(sep, st.(ev := k));
  }

  // ---- Texts without a port ----

  // A number below 10^10 in decimal.
  function Decimal(n: uint32): string { if n == 0 then "0" else LowDigits(n, 10, 10) }

  // Numbers joined by dots, with nothing behind the last.
  function Dotted(vs: seq<uint32>): string {
    if |vs| == 0 then ""
    else if |vs| == 1 then Decimal(vs[0])
    else Dotted(vs[..|vs| - 1]) + ("." + Decimal(vs[|vs| - 1]))
  }

  lemma DecimalScanned(n: uint32, st: Parse4)
    requires |st.aa| == 4 && st.sect < 4 && st.ev == 0
    ensures Scan4(Decimal(n), st) == st.(ev := Low8(n))
  {
    hide Low8;
    if n == 0 {
      SmallLow8(0);
      Scan4One('0', st);
      assert Decimal(n) == ['0'];
    } else {
      TenPower();
      Scan4Number(n, 10, st);
    }
  }

  lemma TenPower()
    ensures Power(10, 10) == 10_000_000_000
  {
    assert Power(10, 2) == 100 && Power(10, 4) == 10_000 && Power(10, 6) == 1_000_000 && Power(10, 8) == 100_000_000;
  }

  // All sections but the last are stored, the last is in hand.
  lemma {:induction false} DottedScanned(vs: seq<uint32>, was: seq<uint8>)
    requires 1 <= |vs| <= 4 && |was| == 4
    ensures var m := |vs| - 1;
            Scan4(Dotted(vs), Parse4(was, 0, 0)) == Parse4(Modulo(vs[..m]) + was[m..], m, Low8(vs[m]))
  {
    hide Decimal, Scan4, Low8;
    var m := |vs| - 1;
    if m == 0 {
      DecimalScanned(vs[0], Parse4(was, 0, 0));
      assert Modulo([]) + was[0..] == was;
    } else {
      var front := vs[..m];
      DottedScanned(front, was);
      var st := Parse4(Modulo(front[..m - 1]) + was[m - 1..], m - 1, Low8(front[m - 1]));
      Scan4Concat(Dotted(front), "." + Decimal(vs[m]), Parse4(was, 0, 0));
      Scan4Concat(".", Decimal(vs[m]), st);
      Scan4One('.', st);
      ModuloSnoc(front);
      Stored(Modulo(front[..m - 1]), was, st.ev);
      DecimalScanned(vs[m], Parse4(Modulo(front) + was[m..], m, 0));
    }
  }

  function Modulo(vs: seq<uint32>): (r: seq<uint8>)
    ensures |r| == |vs| && forall k :: 0 <= k < |vs| ==> r[k] == Low8(vs[k])
  {
    seq(|vs|, k requires 0 <= k < |vs| => Low8(vs[k]))
  }

  /** A text of up to four numbers and nothing behind them sets exactly as many octets, each to its
      number modulo 256. */
  lemma Ip4Sections(vs: seq<uint32>, was: seq<uint8>)
    requires 1 <= |vs| <= 4 && |was| == 4
    ensures Finish4(Scan4(Dotted(vs), Parse4(was, 0, 0))) == Modulo(vs) + was[|vs|..]
  {
    hide Dotted, Scan4, Modulo, Low8;
    DottedScanned(vs, was);
    var m := |vs| - 1;
    ModuloSnoc(vs);
    Stored(Modulo(vs[..m]), was, Low8(vs[m]));
  }

  lemma ModuloSnoc(vs: seq<uint32>)
    requires |vs| >= 1
    ensures Modulo(vs) == Modulo(vs[..|vs| - 1]) + [Low8(vs[|vs| - 1])]
  {
    hide Low8;
  }

  lemma Stored(front: seq<uint8>, was: seq<uint8>, x: uint8)
    requires |front| < |was|
    ensures (front + was[|front|..])[|front| := x] == front + [x] + was[|front| + 1..]
  {}

  /** So the plain dotted text of an address, as one writes it, gives the address, whatever was there. */
  lemma Ip4Plain(aa: seq<uint8>, was: seq<uint8>)
    requires |aa| == |was| == 4
    ensures var t := Octet(aa[0]) + ("." + Octet(aa[1])) + ("." + Octet(aa[2])) + ("." + Octet(aa[3]));
            Finish4(Scan4(t, Parse4(was, 0, 0))) == aa
  {
    hide Octet, Decimal, Scan4, Low8;
    var vs: seq<uint32> := [aa[0], aa[1], aa[2], aa[3]];
    forall k | 0 <= k < 4 ensures Octet(aa[k]) == Decimal(aa[k]) {
      OctetIsDecimal(aa[k]);
    }
    DottedFour(aa[0], aa[1], aa[2], aa[3]);
    Ip4Sections(vs, was);
    forall k | 0 <= k < 4 ensures Modulo(vs)[k] == aa[k] {
      SmallLow8(aa[k]);
    }
    assert Modulo(vs) + was[4..] == aa;
  }

  lemma DottedFour(a: uint32, b: uint32, c: uint32, d: uint32)
    ensures Dotted([a, b, c, d])
         == Decimal(a) + ("." + Decimal(b)) + ("." + Decimal(c)) + ("." + Decimal(d))
  {
    hide Decimal;
    var vs: seq<uint32> := [a, b, c, d];
    assert vs[..3][..2] == vs[..2] && vs[..2][..1] == vs[..1];
    assert Dotted(vs[..1]) == Decimal(a);
    assert Dotted(vs[..2]) == Dotted(vs[..1]) + ("." + Decimal(b));
    assert Dotted(vs[..3]) == Dotted(vs[..2]) + ("." + Decimal(c));
  }

  lemma OctetIsDecimal(k: uint8)
    ensures Octet(k) == Decimal(k)
  {
    if k != 0 {
      assert Power(10, 1) == 10 && Power(10, 2) == 100 && Power(10, 3) == 1000;
      MoreRoom(k, 3, 10);
    }
  }

  // Digits that fit are the same in a larger buffer.
  lemma {:induction false} MoreRoom(n: nat, room: nat, more: nat)
    requires n < Power(10, room) && room <= more
    ensures LowDigits(n, 10, room) == LowDigits(n, 10, more)
    decreases room
  {
    hide Last, Rest, Power, Digit;
    if n > 0 {
      TenSplit(n, room);
      MoreRoom(Rest(n, 10), room - 1, more - 1);
    }
  }

  /** Reading what `to_string` wrote gives the address back, for every address and port. */
  lemma Ip4RoundTrip(aa: seq<uint8>, port: uint16, was: seq<uint8>)
    requires |aa| == |was| == 4
    ensures Finish4(Scan4(Text4(aa, port), Parse4(was, 0, 0))) == aa
  {
    hide Octet, Scan4, PortText;
    var r3 := Octet(aa[3]) + (":" + PortText(port));
    var r2 := Octet(aa[2]) + ("." + r3);
    var r1 := Octet(aa[1]) + ("." + r2);
    var s1 := was[0 := aa[0]];
    var s2 := s1[1 := aa[1]];
    var s3 := s2[2 := aa[2]];
    FourSections(aa, port);
    SectionScanned(aa[0], '.', r1, Parse4(was, 0, 0));
    SectionScanned(aa[1], '.', r2, Parse4(s1, 1, 0));
    SectionScanned(aa[2], '.', r3, Parse4(s2, 2, 0));
    SectionScanned(aa[3], ':', PortText(port), Parse4(s3, 3, 0));
    var s4 := s3[3 := aa[3]];
    Scan4Stops(PortText(port), Parse4(s4, 4, 0));
    assert s4 == aa;
  }

  lemma FourSections(aa: seq<uint8>, port: uint16)
    requires |aa| == 4
    ensures var r3 := Octet(aa[3]) + ([':'] + PortText(port));
            var r2 := Octet(aa[2]) + (['.'] + r3);
            var r1 := Octet(aa[1]) + (['.'] + r2);
            Text4(aa, port) == Octet(aa[0]) + (['.'] + r1)
            && r3 == Octet(aa[3]) + (":" + PortText(port)) && r2 == Octet(aa[2]) + ("." + r3)
            && r1 == Octet(aa[1]) + ("." + r2)
  {
    hide Octet, PortText;
    var r3 := Octet(aa[3]) + (":" + PortText(port));
    var r2 := Octet(aa[2]) + ("." + r3);
    AssociateText(Octet(aa[2]), r3);
    AssociateText(Octet(aa[1]), r2);
    AssociateText(Octet(aa[0]), Octet(aa[1]) + ("." + r2));
  }

  lemma AssociateText(o: string, r: string)
    ensures o + "." + r == o + ("." + r)
  {}

  // ---- Printing ----

  method OctetText(aa: uint8) returns (t: string)
    ensures t == Octet(aa)
  {
    hide LowDigits, Last, Rest;
    var cvb := seq(3, _ => ' ');
    var i, k: nat := 3, aa;
    NoDigits(0, 10, 3);
    assert cvb[3..3] == "" && LowDigits(aa, 10, 3) + "" == LowDigits(aa, 10, 3);
    while i != 0 && k != 0
      invariant i <= 3 && |cvb| == 3 && LowDigits(k, 10, i) + cvb[i..] == LowDigits(aa, 10, 3)
      invariant i == 3 ==> k == aa
    {
      ghost var written := cvb[i..];
      LowDigitsNext(k, 10, i);
      Regroup(LowDigits(Rest(k, 10), 10, i - 1), Digit(Last(k, 10)), written);
      cvb := cvb[i - 1 := '0' + Last(k, 10) as char];
      i := i - 1;
      assert cvb[i..] == [Digit(Last(k, 10))] + written;
      k := Rest(k, 10);
    }
    NoDigits(k, 10, i);
    t := if i == 3 then "0" else cvb[i..];
  }

  // The characters before the end mark.
  function UpToEnd(s: string): string {
    if |s| == 0 || s[0] == 0 as char then "" else [s[0]] + UpToEnd(s[1..])
  }

  lemma {:induction false} UpToEndIs(t: string, rest: string)
    requires 0 as char !in t
    ensures UpToEnd(t + [0 as char] + rest) == t
  {
    if |t| > 0 {
      assert (t + [0 as char] + rest)[1..] == t[1..] + [0 as char] + rest;
      UpToEndIs(t[1..], rest);
    }
  }

  lemma {:induction false} NoEndMark(n: nat, radix: nat, room: nat)
    requires 1 <= radix <= 64
    ensures 0 as char !in LowDigits(n, radix, room)
    decreases room
  {
    if room > 0 && n > 0 {
      NoEndMark(Rest(n, radix), radix, room - 1);
      LowDigitsNext(n, radix, room);
    }
  }

  // `n_itoan` into the ten-character buffer, read as a text.
  method NumberIn10(v: nat, radix: nat) returns (t: string)
    requires v <= INT_MAX && 1 <= radix <= 64
    ensures t == Text(v, 10, radix)
  {
    hide Text, LowDigits;
    var cvb := new char[10](_ => ' ');
    ghost var was := cvb[..];
    var ok := NItoan(v, cvb, 10, radix);
    t := UpToEnd(cvb[..]);
    NumberNoEnd(v, radix);
    UpToEndIs(Text(v, 10, radix), was[|Text(v, 10, radix)| + 1..]);
  }

  lemma NumberNoEnd(v: nat, radix: nat)
    requires 1 <= radix <= 64
    ensures 0 as char !in Text(v, 10, radix)
  {
    NoEndMark(v, radix, 9);
  }

  /** `to_string` of an IPv4 address. */
  method ToString4(aa: seq<uint8>, port: uint16) returns (ret: string)
    requires |aa| == 4
    ensures ret == Text4(aa, port)
  {
    hide Octet, Text;
    var o0 := OctetText(aa[0]);
    var o1 := OctetText(aa[1]);
    var o2 := OctetText(aa[2]);
    var o3 := OctetText(aa[3]);
    var p := NumberIn10(port, 10);
    ret := o0 + ".";
    ret := ret + o1 + ".";
    ret := ret + o2 + ".";
    ret := ret + o3;
    ret := ret + ":" + p;
    FlatText4(o0, o1, o2, o3, p);
  }

  lemma FlatText4(a: string, b: string, c: string, d: string, p: string)
    ensures a + "." + b + "." + c + "." + d + ":" + p == a + "." + (b + "." + (c + "." + (d + (":" + p))))
  {
    var r := d + (":" + p);
    assert c + "." + d + ":" + p == c + "." + r;
    assert b + "." + c + "." + d + ":" + p == b + "." + (c + "." + r);
  }

  /** `to_string` of an IPv6 address, whose groups are given in the order they are printed. */
  method ToString6(aa: seq<uint16>, port: uint16) returns (ret: string)
    requires |aa| == 8
    ensures ret == Text6(aa, port)
  {
    hide Text, Groups;
    ret := "[";
    var i := 0;
    GroupsNext(aa, 0);
    while i < 7
      invariant i <= 7
      invariant ret == "[" + (if i == 0 then "" else Groups(aa[..i]) + ":")
    {
      var g := NumberIn10(aa[i], 16);
      GroupsNext(aa, i);
      ghost var front := ret;
      ret := ret + g;
      assert ret == "[" + Groups(aa[..i + 1]);
      ret := ret + ":";
      assert ret == "[" + (Groups(aa[..i + 1]) + ":");
      i := i + 1;
    }
    var g := NumberIn10(aa[i], 16);
    GroupsNext(aa, i);
    ret := ret + g;
    assert aa[..8] == aa;
    assert ret == "[" + Groups(aa);
    var p := NumberIn10(port, 10);
    ret := ret + "]:";
    ret := ret + p;
    LastParts("[" + Groups(aa), p);
  }

  lemma GroupsNext(aa: seq<uint16>, i: nat)
    requires i < |aa|
    ensures Groups(aa[..i + 1]) == if i == 0 then Group(aa[0]) else Groups(aa[..i]) + (":" + Group(aa[i]))
  {
    assert aa[..i + 1][..i] == aa[..i];
  }

  lemma LastParts(front: string, p: string)
    ensures front + "]:" + p == front + "]" + (":" + p)
  {
    assert "]:" == "]" + ":";
  }

  // ---- The port ----

  function AfterLastColon(t: string): string {
    if |t| == 0 || t[|t| - 1] == ':' then "" else AfterLastColon(t[..|t| - 1]) + [t[|t| - 1]]
  }

  lemma {:induction false} AfterLastColonIs(front: string, p: string)
    requires ':' !in p
    ensures AfterLastColon(front + ":" + p) == p
  {
    var t := front + ":" + p;
    if |p| > 0 {
      assert t[..|t| - 1] == front + ":" + p[..|p| - 1];
      AfterLastColonIs(front, p[..|p| - 1]);
    } else {
      assert t[|t| - 1] == ':';
    }
  }

  lemma {:induction false} NoColon(n: nat, room: nat)
    ensures ':' !in LowDigits(n, 10, room)
    decreases room
  {
    hide Last, Rest, Digit;
    if room > 0 && n > 0 {
      NoColon(Rest(n, 10), room - 1);
      LowDigitsNext(n, 10, room);
      DecimalDigit(Last(n, 10));
    }
  }

  lemma PortReads(front: string, p: uint16)
    ensures ReadBack(AfterLastColon(front + ":" + PortText(p)), 10) == p
  {
    hide LowDigits, AfterLastColon, ReadBack;
    NinePower();
    NoColon(p, 9);
    TextReadsBack(p, 10, 10);
    AfterLastColonIs(front, PortText(p));
  }

  lemma NinePower()
    ensures Power(10, 9) == 1_000_000_000
  {
    assert Power(10, 2) == 100 && Power(10, 4) == 10_000 && Power(10, 6) == 1_000_000 && Power(10, 8) == 100_000_000;
  }

  /** The number behind the last colon of a printed address is the port. */
  lemma PortReadsBack(a4: seq<uint8>, a6: seq<uint16>, port: uint16)
    requires |a4| == 4
    ensures ReadBack(AfterLastColon(Text4(a4, port)), 10) == port
    ensures ReadBack(AfterLastColon(Text6(a6, port)), 10) == port
  {
    hide Octet, PortText, Groups, AfterLastColon, ReadBack;
    FlatText4(Octet(a4[0]), Octet(a4[1]), Octet(a4[2]), Octet(a4[3]), PortText(port));
    PortReads(Octet(a4[0]) + "." + Octet(a4[1]) + "." + Octet(a4[2]) + "." + Octet(a4[3]), port);
    AssociateColon("[" + Groups(a6) + "]", PortText(port));
    PortReads("[" + Groups(a6) + "]", port);
  }

  lemma AssociateColon(front: string, p: string)
    ensures front + (":" + p) == front + ":" + p
  {}

  // ---- Two texts in full ----

  /** 127.0.0.1 with port 80. */
  lemma Loopback()
    ensures Text4([127, 0, 0, 1], 80) == "127" + "." + "0" + "." + "0" + "." + "1" + ":80"
  {
    hide Octet, PortText;
    Octet127();
    Octets01();
    Port80();
    FlatText4("127", "0", "0", "1", "80");
    assert "127" + "." + "0" + "." + "0" + "." + "1" + ":" + "80" == "127" + "." + "0" + "." + "0" + "." + "1" + ":80";
  }

  lemma Octet127()
    ensures Octet(127) == "127"
  {
    assert LowDigits(1, 10, 1) == "1" && LowDigits(12, 10, 2) == "12";
  }

  lemma Octets01()
    ensures Octet(0) == "0" && Octet(1) == "1"
  {}

  lemma Port80()
    ensures PortText(80) == "80"
  {
    assert LowDigits(8, 10, 8) == "8" && LowDigits(80, 10, 9) == "80";
  }

  /** 2001:db8::1, all groups written out, with port 443. */
  lemma Documentation()
    ensures Text6([0x2001, 0xdb8, 0, 0, 0, 0, 0, 1], 443)
         == "[" + ("2001" + ":db8" + ":0" + ":0" + ":0" + ":0" + ":0" + ":1") + "]" + ":443"
  {
    hide PortText, Group, Groups;
    Group2001();
    GroupDb8();
    Groups01();
    Port443();
    var gs: seq<uint16> := [0x2001, 0xdb8, 0, 0, 0, 0, 0, 1];
    GroupsNext(gs, 0);
    GroupsNext(gs, 1);
    GroupsNext(gs, 2);
    GroupsNext(gs, 3);
    GroupsNext(gs, 4);
    GroupsNext(gs, 5);
    GroupsNext(gs, 6);
    GroupsNext(gs, 7);
    Colons();
    assert gs[..8] == gs;
  }

  lemma Colons()
    ensures ":" + "db8" == ":db8" && ":" + "0" == ":0" && ":" + "1" == ":1" && ":" + "443" == ":443"
  {}

  lemma Group2001()
    ensures Group(0x2001) == "2001"
  {
    assert LowDigits(2, 16, 6) == "2" && LowDigits(0x20, 16, 7) == "20";
    assert LowDigits(0x200, 16, 8) == "200" && LowDigits(0x2001, 16, 9) == "2001";
  }

  lemma GroupDb8()
    ensures Group(0xdb8) == "db8"
  {
    assert LowDigits(0xd, 16, 7) == "d" && LowDigits(0xdb, 16, 8) == "db" && LowDigits(0xdb8, 16, 9) == "db8";
  }

  lemma Groups01()
    ensures Group(0) == "0" && Group(1) == "1"
  {
    assert LowDigits(1, 16, 9) == "1";
  }

  lemma Port443()
    ensures PortText(443) == "443"
  {
    assert LowDigits(4, 10, 7) == "4" && LowDigits(44, 10, 8) == "44" && LowDigits(443, 10, 9) == "443";
  }
}
