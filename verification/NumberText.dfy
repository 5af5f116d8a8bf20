/** `n_itoan` of src/network.cpp: numbers in radix 1 to 64, cut to the room there is. */
module NumberText {
  import opened Division

  const INT_MIN: int := -0x8000_0000
  const INT_MAX: int := 0x7fff_ffff

  // ---- Digits ----

  // The entries of `RadixLookup`.
  function Digit(d: nat): char
    requires d < 64
  {
    if d < 10 then '0' + d as char
    else if d < 36 then 'a' + (d - 10) as char
    else if d < 62 then 'A' + (d - 36) as char
    else if d == 62 then '/' else '='
  }

  // The source's table.
  const RADIX_LOOKUP: string := "01234567" + "89abcdef" + "ghijklmn" + "opqrstuv" + "wxyzABCD" + "EFGHIJKL"
                              + "MNOPQRST" + "UVWXYZ/="

  lemma TableIsDigits(d: nat)
    requires d < 64
    ensures |RADIX_LOOKUP| == 64 && RADIX_LOOKUP[d] == Digit(d)
  {
    if d < 8 { assert RADIX_LOOKUP[d] == "01234567"[d]; }
    else if d < 16 { assert RADIX_LOOKUP[d] == "89abcdef"[d - 8]; }
    else if d < 24 { assert RADIX_LOOKUP[d] == "ghijklmn"[d - 16]; }
    else if d < 32 { assert RADIX_LOOKUP[d] == "opqrstuv"[d - 24]; }
    else if d < 40 { assert RADIX_LOOKUP[d] == "wxyzABCD"[d - 32]; }
    else if d < 48 { assert RADIX_LOOKUP[d] == "EFGHIJKL"[d - 40]; }
    else if d < 56 { assert RADIX_LOOKUP[d] == "MNOPQRST"[d - 48]; }
    else { assert RADIX_LOOKUP[d] == "UVWXYZ/="[d - 56]; }
  }

  function DigitValue(c: char): nat {
    if '0' <= c <= '9' then (c - '0') as nat
    else if 'a' <= c <= 'z' then (c - 'a') as nat + 10
    else if 'A' <= c <= 'Z' then (c - 'A') as nat + 36
    else if c == '/' then 62 else 63
  }

  lemma DigitRoundTrip(d: nat)
    requires d < 64
    ensures DigitValue(Digit(d)) == d
  {}

  function Power(r: nat, k: nat): (p: nat)
    ensures r >= 1 ==> p >= 1
  {
    if k == 0 then 1 else r * Power(r, k - 1)
  }

  function Abs(v: int): nat { if v < 0 then -v else v }

  function Last(n: nat, radix: nat): (d: nat)
    requires radix >= 1
    ensures d < radix
  {
    n % radix
  }

  function Rest(n: nat, radix: nat): nat
    requires radix >= 1
  {
    n / radix
  }

  // The low-order digits of `n`, at most `room`, most significant first; none for zero.
  function LowDigits(n: nat, radix: nat, room: nat): (t: string)
    requires 1 <= radix <= 64
    ensures |t| <= room
    decreases room
  {
    if room == 0 || n == 0 then [] else LowDigits(Rest(n, radix), radix, room - 1) + [Digit(Last(n, radix))]
  }

  lemma LowDigitsNext(n: nat, radix: nat, room: nat)
    requires 1 <= radix <= 64 && room > 0 && n > 0
    ensures LowDigits(n, radix, room) == LowDigits(Rest(n, radix), radix, room - 1) + [Digit(Last(n, radix))]
  {}

  function Sign(v: int): string { if v < 0 then "-" else "" }

  // The text of `v` in a buffer of `bufn` characters, one of which ends it.
  function Text(v: int, bufn: nat, radix: nat): (t: string)
    requires 2 <= bufn && 1 <= radix <= 64
    ensures 1 <= |t| < bufn
  {
    if v == 0 then "0" else Sign(v) + LowDigits(Abs(v), radix, bufn - 1 - |Sign(v)|)
  }

  // ---- Reading back ----

  function Value(t: string, radix: nat): nat {
    if |t| == 0 then 0 else Value(t[..|t| - 1], radix) * radix + DigitValue(t[|t| - 1])
  }

  function ReadBack(t: string, radix: nat): int {
    if |t| > 0 && t[0] == '-' then -(Value(t[1..], radix) as int) else Value(t, radix)
  }

  lemma RemainderNext(n: nat, radix: nat, room: nat)
    requires radix >= 1 && room > 0
    ensures n % Power(radix, room) == Rest(n, radix) % Power(radix, room - 1) * radix + Last(n, radix)
  {
    SplitRemainder(n, radix, Power(radix, room - 1));
  }

  lemma SmallPower(radix: nat, room: nat)
    requires radix >= 1
    ensures 0 % Power(radix, room) == 0 && Power(radix, 0) == 1
  {}

  lemma {:induction false} LowDigitsValue(n: nat, radix: nat, room: nat)
    requires 1 <= radix <= 64
    ensures Value(LowDigits(n, radix, room), radix) == n % Power(radix, room)
    decreases room
  {
    if room > 0 && n > 0 {
      hide Last, Rest, Digit, DigitValue, Power;
      LowDigitsValue(Rest(n, radix), radix, room - 1);
      RemainderNext(n, radix, room);
      DigitRoundTrip(Last(n, radix));
    } else {
      SmallPower(radix, room);
    }
  }

  /** Reading the text gives the number back exactly when its digits fit beside the sign. */
  lemma TextReadsBack(v: int, bufn: nat, radix: nat)
    requires 2 <= bufn && 1 <= radix <= 64
    ensures ReadBack(Text(v, bufn, radix), radix) == v <==> v == 0 || Abs(v) < Power(radix, bufn - 1 - |Sign(v)|)
  {
    hide Power, LowDigits, Value;
    if v == 0 {
      ZeroReadsBack(radix);
    } else {
      var room := bufn - 1 - |Sign(v)|;
      var t := LowDigits(Abs(v), radix, room);
      LowDigitsValue(Abs(v), radix, room);
      SmallRemainder(Abs(v), Power(radix, room));
      NoSign(Abs(v), radix, room);
      if v < 0 {
        assert ("-" + t)[1..] == t;
      } else {
        assert "" + t == t;
      }
    }
  }

  lemma ZeroReadsBack(radix: nat)
    ensures ReadBack("0", radix) == 0
  {
    assert "0"[..0] == "" && Value("0"[..0], radix) == 0;
  }

  lemma {:induction false} NoSign(n: nat, radix: nat, room: nat)
    requires 1 <= radix <= 64
    ensures '-' !in LowDigits(n, radix, room)
    decreases room
  {
    if room > 0 && n > 0 {
      NoSign(Rest(n, radix), radix, room - 1);
    }
  }

  // ---- The procedure ----

  // A text and its end in a buffer, the rest of which stays.
  function Ended(t: string, was: string): (s: string)
    requires |t| < |was|
    ensures |s| == |was|
  {
    t + [0 as char] + was[|t| + 1..]
  }

  // The null result, a text in the buffer, or no meaning at all: the source negates a negative
  // value, and for the least one that overflows.
  datatype Itoa = Null | Stored | Overflow

  /** `n_itoan` into a buffer of `bufn` characters. */
  method NItoan(v: int, buf: array?<char>, bufn: int, radix: int) returns (r: Itoa)
    requires INT_MIN <= v <= INT_MAX && (buf != null ==> bufn <= buf.Length)
    modifies buf
    ensures r == Null <==> buf == null || bufn < 2 || radix < 1 || radix > 64
    ensures r == Overflow <==> r != Null && v == INT_MIN
    ensures r == Null && buf != null ==> buf[..] == old(buf[..])
    ensures r == Stored ==> buf[..] == Ended(Text(v, bufn, radix), old(buf[..]))
  {
    if buf == null || bufn < 2 || radix < 1 || radix > 64 {
      return Null;
    }
    hide Ended, Text;
    if v == 0 {
      ZeroEnded(buf[..], bufn, radix);
      buf[0], buf[1] := '0', 0 as char;
    } else if v == INT_MIN {
      return Overflow;
    } else {
      PutNumber(v, buf, bufn, radix);
    }
    r := Stored;
  }

  // Sign, digits and end of a number that is not zero.
  method PutNumber(v: int, buf: array<char>, bufn: nat, radix: nat)
    requires v != 0 && 2 <= bufn <= buf.Length && 1 <= radix <= 64
    modifies buf
    ensures buf[..] == Ended(Text(v, bufn, radix), old(buf[..]))
  {
    hide LowDigits, Ended, Text;
    NonZeroText(v, bufn, radix);
    if v < 0 {
      PutMinus(buf);
      PutSigned(-v, buf, bufn, 1, radix, "-", old(buf[..]));
    } else {
      assert buf[..] == "" + buf[..][0..];
      PutSigned(v, buf, bufn, 0, radix, "", old(buf[..]));
    }
  }

  method PutMinus(buf: array<char>)
    requires buf.Length > 0
    modifies buf
    ensures buf[..] == "-" + old(buf[..])[1..]
  {
    buf[0] := '-';
  }

  // Digits and end behind the sign.
  method PutSigned(v: nat, buf: array<char>, bufn: nat, ss: nat, radix: nat, ghost sign: string, ghost was: string)
    requires ss < bufn <= buf.Length == |was|
    requires 1 <= radix <= 64 && |sign| == ss && buf[..] == sign + was[ss..]
    modifies buf
    ensures buf[..] == Ended(sign + LowDigits(v, radix, bufn - 1 - ss), was)
  {
    hide LowDigits, Ended;
    ghost var signed := buf[..];
    var i := PutDigits(v, buf, bufn, ss, radix);
    ghost var full := buf[..];
    buf[i] := 0 as char;
    assert buf[..] == full[i := 0 as char];
    EndedAt(was, signed, sign, LowDigits(v, radix, bufn - 1 - ss));
  }

  // The loop over the digits, from the lowest, each put in front of the ones before.
  method PutDigits(v: nat, buf: array<char>, bufn: nat, ss: nat, radix: nat) returns (i: nat)
    requires ss < bufn <= buf.Length && 1 <= radix <= 64
    modifies buf
    ensures var t := LowDigits(v, radix, bufn - 1 - ss);
            && i == ss + |t| < bufn && buf[..] == old(buf[..])[..ss] + t + old(buf[..])[i..]
  {
    hide LowDigits, Digit, Last, Rest;
    ghost var was := buf[..];
    ghost var all, written := LowDigits(v, radix, bufn - 1 - ss), "";
    assert all + written == all && was == was[..ss] + written + was[ss..];
    var w := v;
    i := ss;
    while i + 1 < bufn && w != 0
      invariant ss <= i < bufn && |written| == i - ss
      invariant LowDigits(w, radix, bufn - 1 - i) + written == all
      invariant buf[..] == was[..ss] + written + was[i..]
      decreases bufn - i
    {
      var cc := Digit(Last(w, radix));
      ghost var before := LowDigits(Rest(w, radix), radix, bufn - 2 - i);
      LowDigitsNext(w, radix, bufn - 1 - i);
      Regroup(before, cc, written);
      Shift(buf, ss, i, cc);
      InsertedAt(was[..ss], written, was, i, cc);
      written := [cc] + written;
      i := i + 1;
      w := Rest(w, radix);
    }
    NoDigits(w, radix, bufn - 1 - i);
    assert written == all;
  }

  // Move the digits up and put a new one in front of them.
  method Shift(buf: array<char>, ss: nat, i: nat, cc: char)
    requires ss <= i < buf.Length
    modifies buf
    ensures buf[..] == old(buf[..])[..ss] + [cc] + old(buf[..])[ss..i] + old(buf[..])[i + 1..]
  {
    var k := i;
    while k > ss
      invariant ss <= k <= i
      invariant forall j :: 0 <= j < buf.Length ==> buf[j] == if k < j <= i then old(buf[j - 1]) else old(buf[j])
    {
      buf[k] := buf[k - 1];
      k := k - 1;
    }
    buf[ss] := cc;
  }

  lemma NonZeroText(v: int, bufn: nat, radix: nat)
    requires v != 0 && 2 <= bufn && 1 <= radix <= 64
    ensures v < 0 ==> Text(v, bufn, radix) == "-" + LowDigits(-v, radix, bufn - 2)
    ensures v > 0 ==> Text(v, bufn, radix) == "" + LowDigits(v, radix, bufn - 1)
  {}

  lemma Regroup(before: string, cc: char, written: string)
    ensures (before + [cc]) + written == before + ([cc] + written)
  {}

  lemma InsertedAt(sign: string, written: string, was: string, i: nat, cc: char)
    requires i < |was| && |sign| + |written| == i
    ensures var s := sign + written + was[i..];
            s[..|sign|] + [cc] + s[|sign|..i] + s[i + 1..] == sign + ([cc] + written) + was[i + 1..]
  {
    var s := sign + written + was[i..];
    assert s[..|sign|] == sign && s[|sign|..i] == written && s[i + 1..] == was[i + 1..];
  }

  lemma EndedAt(was: string, signed: string, sign: string, t: string)
    requires |sign| + |t| < |was| == |signed| && signed == sign + was[|sign|..]
    ensures (signed[..|sign|] + t + signed[|sign| + |t|..])[|sign| + |t| := 0 as char] == Ended(sign + t, was)
  {
    var front, rest := sign + t, was[|sign| + |t|..];
    assert signed[..|sign|] == sign;
    assert signed[|sign| + |t|..] == rest;
    assert (front + rest)[|front| := 0 as char] == front + rest[0 := 0 as char];
    assert rest[0 := 0 as char] == [0 as char] + rest[1..];
    assert rest[1..] == was[|front| + 1..];
    Regroup(sign + t, 0 as char, rest[1..]);
  }

  lemma ZeroEnded(was: string, bufn: nat, radix: nat)
    requires 2 <= bufn <= |was| && 1 <= radix <= 64
    ensures was[0 := '0'][1 := 0 as char] == Ended(Text(0, bufn, radix), was)
  {}

  lemma NoDigits(w: nat, radix: nat, room: nat)
    requires 1 <= radix <= 64
    ensures w == 0 || room == 0 ==> LowDigits(w, radix, room) == []
  {}
}
