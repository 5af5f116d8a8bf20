/** `base64l_be` and `Hash::tobase64` of src/crypt.cpp against section 4 of RFC 4648. */
module Base64 {
  import opened MachineTypes
  import opened Sha1Spec

  // ---- Section 4 of RFC 4648 ----

  // Table 1.
  function Alphabet(i: nat): char
    requires i < 64
  {
    if i < 26 then 'A' + i as char
    else if i < 52 then 'a' + (i - 26) as char
    else if i < 62 then '0' + (i - 52) as char
    else if i == 62 then '+' else '/'
  }

  function Symbol(x: Word): char
    requires x < 64
  {
    Alphabet(x as int)
  }

  // The four 6-bit groups of three bytes.
  function Group0(x: bv8): Word { (x as Word) >> 2 }
  function Group1(x: bv8, y: bv8): Word { ((x as Word & 3) << 4) | (y as Word >> 4) }
  function Group2(y: bv8, z: bv8): Word { ((y as Word & 15) << 2) | (z as Word >> 6) }
  function Group3(z: bv8): Word { z as Word & 63 }

  lemma GroupsFit(x: bv8, y: bv8)
    ensures Group0(x) < 64 && Group1(x, y) < 64 && Group2(x, y) < 64 && Group3(x) < 64
  {}

  function Four(x: bv8, y: bv8, z: bv8): (s: string)
    ensures |s| == 4
  {
    GroupsFit(x, y);
    GroupsFit(y, z);
    GroupsFit(z, 0);
    [Symbol(Group0(x)), Symbol(Group1(x, y)), Symbol(Group2(y, z)), Symbol(Group3(z))]
  }

  function Encode(b: seq<bv8>): string {
    if |b| == 0 then []
    else if |b| == 1 then Four(b[0], 0, 0)[..2] + "=="
    else if |b| == 2 then Four(b[0], b[1], 0)[..3] + "="
    else Four(b[0], b[1], b[2]) + Encode(b[3..])
  }

  // The inverse of Table 1; -1 for a character outside it.
  function Position(c: char): (i: int)
    ensures -1 <= i < 64
  {
    if 'A' <= c <= 'Z' then c as int - 65
    else if 'a' <= c <= 'z' then c as int - 71
    else if '0' <= c <= '9' then c as int + 4
    else if c == '+' then 62
    else if c == '/' then 63
    else -1
  }

  function Value(c: char): Option<Word> {
    if Position(c) < 0 then None else Some(Position(c) as Word)
  }

  // The three bytes of four groups.
  function Byte0(p: Word, q: Word): bv8 { (((p << 2) | (q >> 4)) & 0xff) as bv8 }
  function Byte1(q: Word, r: Word): bv8 { (((q << 4) | (r >> 2)) & 0xff) as bv8 }
  function Byte2(r: Word, s: Word): bv8 { (((r << 6) | s) & 0xff) as bv8 }

  function Decode(s: string): Option<seq<bv8>> {
    if |s| == 0 then Some([])
    else if |s| < 4 || Value(s[0]).None? || Value(s[1]).None? then None
    else
      var p, q := Value(s[0]).value, Value(s[1]).value;
      if s[2] == '=' then
        if s[3] == '=' && |s| == 4 then Some([Byte0(p, q)]) else None
      else if Value(s[2]).None? then None
      else
        var r := Value(s[2]).value;
        if s[3] == '=' then
          if |s| == 4 then Some([Byte0(p, q), Byte1(q, r)]) else None
        else if Value(s[3]).None? then None
        else
          var rest := Decode(s[4..]);
          if rest.None? then None else Some([Byte0(p, q), Byte1(q, r), Byte2(r, Value(s[3]).value)] + rest.value)
  }

  /** The four groups in order are the bits of the three bytes in order. */
  lemma GroupsInOrder(x: bv8, y: bv8, z: bv8)
    ensures (Group0(x) << 18) | (Group1(x, y) << 12) | (Group2(y, z) << 6) | Group3(z)
         == (x as Word << 16) | (y as Word << 8) | z as Word
  {}

  lemma PublishedFours()
    ensures Four(0x66, 0x6f, 0x6f) == "Zm9v" && Four(0x62, 0x61, 0x72) == "YmFy"
  {}

  /** The test vectors of section 10 of RFC 4648, for "f", "fo", "foo", "foob", "fooba" and "foobar". */
  lemma PublishedVectors()
    ensures Encode([0x66]) == "Zg==" && Encode([0x66, 0x6f]) == "Zm8=" && Encode([0x66, 0x6f, 0x6f]) == "Zm9v"
    ensures Encode([0x66, 0x6f, 0x6f, 0x62]) == "Zm9v" + "Yg=="
    ensures Encode([0x66, 0x6f, 0x6f, 0x62, 0x61]) == "Zm9v" + "YmE="
    ensures Encode([0x66, 0x6f, 0x6f, 0x62, 0x61, 0x72]) == "Zm9v" + "YmFy"
  {
    PublishedFours();
    PublishedEnds();
    hide Four;
    var foo, b: seq<bv8> := [0x66, 0x6f, 0x6f], [0x62, 0x61, 0x72];
    assert foo[3..] == [] && b[3..] == [];
    assert (foo + b[..1])[3..] == b[..1] == [0x62] && foo + b[..1] == [0x66, 0x6f, 0x6f, 0x62];
    assert (foo + b[..2])[3..] == b[..2] == [0x62, 0x61] && foo + b[..2] == [0x66, 0x6f, 0x6f, 0x62, 0x61];
    assert (foo + b)[3..] == b && foo + b == [0x66, 0x6f, 0x6f, 0x62, 0x61, 0x72];
  }

  lemma PublishedEnds()
    ensures Encode([0x66]) == "Zg==" && Encode([0x66, 0x6f]) == "Zm8="
    ensures Encode([0x62]) == "Yg==" && Encode([0x62, 0x61]) == "YmE="
  {}

  lemma AlphabetPosition(i: nat)
    requires i < 64
    ensures Position(Alphabet(i)) == i && Alphabet(i) != '=' && Alphabet(i) as int != 0
  {}

  lemma WordIndex(x: Word)
    requires x < 64
    ensures 0 <= x as int < 64 && (x as int) as Word == x
  {}

  lemma SymbolValue(x: Word)
    requires x < 64
    ensures Value(Symbol(x)) == Some(x) && Symbol(x) != '='
  {
    hide Alphabet, Position;
    WordIndex(x);
    AlphabetPosition(x as int);
  }

  lemma BytesOfGroups(x: bv8, y: bv8, z: bv8)
    ensures Byte0(Group0(x), Group1(x, y)) == x
    ensures Byte1(Group1(x, y), Group2(y, z)) == y
    ensures Byte2(Group2(y, z), Group3(z)) == z
  {}

  /** Decoding undoes encoding, for every byte string. */
  lemma {:induction false} DecodeEncode(b: seq<bv8>)
    ensures Decode(Encode(b)) == Some(b)
  {
    hide Symbol, Value, Group0, Group1, Group2, Group3, Byte0, Byte1, Byte2;
    if |b| == 0 {
    } else if |b| == 1 {
      BytesOfGroups(b[0], 0, 0);
      GroupsFit(b[0], 0);
      SymbolValue(Group0(b[0]));
      SymbolValue(Group1(b[0], 0));
      assert b == [b[0]];
    } else if |b| == 2 {
      BytesOfGroups(b[0], b[1], 0);
      GroupsFit(b[0], b[1]);
      GroupsFit(b[1], 0);
      SymbolValue(Group0(b[0]));
      SymbolValue(Group1(b[0], b[1]));
      SymbolValue(Group2(b[1], 0));
      assert b == [b[0], b[1]];
    } else {
      BytesOfGroups(b[0], b[1], b[2]);
      GroupsFit(b[0], b[1]);
      GroupsFit(b[1], b[2]);
      GroupsFit(b[2], 0);
      SymbolValue(Group0(b[0]));
      SymbolValue(Group1(b[0], b[1]));
      SymbolValue(Group2(b[1], b[2]));
      SymbolValue(Group3(b[2]));
      DecodeEncode(b[3..]);
      assert Encode(b)[4..] == Encode(b[3..]);
      assert b == [b[0], b[1], b[2]] + b[3..];
    }
  }

  // ---- The words of a digest as bytes, most significant byte first ----

  function Octet(w: Word, k: nat): bv8
    requires k < 4
  {
    if k == 0 then (w >> 24) as bv8
    else if k == 1 then ((w >> 16) & 0xff) as bv8
    else if k == 2 then ((w >> 8) & 0xff) as bv8
    else (w & 0xff) as bv8
  }

  function WordOctets(w: Word): (b: seq<bv8>)
    ensures |b| == 4
  {
    [Octet(w, 0), Octet(w, 1), Octet(w, 2), Octet(w, 3)]
  }

  function Octets(u: seq<Word>): seq<bv8> {
    if |u| == 0 then [] else WordOctets(u[0]) + Octets(u[1..])
  }

  function Join(p: bv8, q: bv8, r: bv8, s: bv8): Word {
    (p as Word << 24) | (q as Word << 16) | (r as Word << 8) | s as Word
  }

  function ToWords(b: seq<bv8>): seq<Word> {
    if |b| < 4 then []
    else [Join(b[0], b[1], b[2], b[3])] + ToWords(b[4..])
  }

  lemma OctetsOfWord(w: Word)
    ensures Join(Octet(w, 0), Octet(w, 1), Octet(w, 2), Octet(w, 3)) == w
  {}

  lemma {:induction false} WordsOfOctets(u: seq<Word>)
    ensures |Octets(u)| == 4 * |u| && ToWords(Octets(u)) == u
  {
    hide Join, Octet;
    if |u| > 0 {
      OctetsOfWord(u[0]);
      WordsOfOctets(u[1..]);
      assert Octets(u)[4..] == Octets(u[1..]);
      assert u == [u[0]] + u[1..];
    }
  }

  /** From the text of a digest its words can be read back. */
  lemma DecodeDigest(u: seq<Word>)
    ensures Decode(Encode(Octets(u))).Some? && ToWords(Decode(Encode(Octets(u))).value) == u
  {
    DecodeEncode(Octets(u));
    WordsOfOctets(u);
  }

  // ---- The source's table and the character groups it forms ----

  const RADIX64: string := "ABCDEFGH" + "IJKLMNOP" + "QRSTUVWX" + "YZabcdef"
                         + "ghijklmn" + "opqrstuv" + "wxyz0123" + "456789+/"

  lemma TableIsAlphabet(i: nat)
    requires i < 64
    ensures |RADIX64| == 64 && RADIX64[i] == Alphabet(i)
  {
    if i < 8 { assert RADIX64[i] == "ABCDEFGH"[i]; }
    else if i < 16 { assert RADIX64[i] == "IJKLMNOP"[i - 8]; }
    else if i < 24 { assert RADIX64[i] == "QRSTUVWX"[i - 16]; }
    else if i < 32 { assert RADIX64[i] == "YZabcdef"[i - 24]; }
    else if i < 40 { assert RADIX64[i] == "ghijklmn"[i - 32]; }
    else if i < 48 { assert RADIX64[i] == "opqrstuv"[i - 40]; }
    else if i < 56 { assert RADIX64[i] == "wxyz0123"[i - 48]; }
    else { assert RADIX64[i] == "456789+/"[i - 56]; }
  }

  function Radix(x: Word): (c: char)
    requires x < 64
    ensures c == Symbol(x)
  {
    WordIndex(x);
    TableIsAlphabet(x as int);
    RADIX64[x as int]
  }

  lemma Masked(x: Word)
    ensures 63 & x < 64
  {}

  lemma TopSextet(x: Word)
    ensures x >> 26 < 64
  {}

  // Six bits of a word (or of the two words the source joins), as a character.
  function R(x: Word): char {
    Masked(x);
    Radix(63 & x)
  }

  // The source's stores: a fresh word; a word begun, the next one following; the end of a word.
  function Quad0(u: Word): (s: string)
    ensures |s| == 4
  {
    TopSextet(u);
    [Radix(u >> 26), R(u >> 20), R(u >> 14), R(u >> 8)]
  }

  function Quad1(a: Word, u: Word): (s: string)
    ensures |s| == 4
  {
    [R(a >> 2), R((a << 4) | (u >> 28)), R(u >> 22), R(u >> 16)]
  }

  function Quad2(a: Word, u: Word): (s: string)
    ensures |s| == 4
  {
    [R(a >> 10), R(a >> 4), R((a << 2) | (u >> 30)), R(u >> 24)]
  }

  function Quad3(a: Word): (s: string)
    ensures |s| == 4
  {
    [R(a >> 18), R(a >> 12), R(a >> 6), R(a)]
  }

  function Pad1(a: Word): (s: string)
    ensures |s| == 4
  {
    [R(a >> 2), R(a << 4), '=', '=']
  }

  function Pad2(a: Word): (s: string)
    ensures |s| == 4
  {
    [R(a >> 10), R(a >> 4), R(a << 2), '=']
  }


  lemma Quad0Groups(u: Word)
    ensures Group0(Octet(u, 0)) == u >> 26
    ensures Group1(Octet(u, 0), Octet(u, 1)) == 63 & (u >> 20)
    ensures Group2(Octet(u, 1), Octet(u, 2)) == 63 & (u >> 14)
    ensures Group3(Octet(u, 2)) == 63 & (u >> 8)
  {}

  lemma Quad0Is(u: Word)
    ensures Quad0(u) == Four(Octet(u, 0), Octet(u, 1), Octet(u, 2))
  {
    hide Symbol, Radix, Octet, Group0, Group1, Group2, Group3;
    Quad0Groups(u);
  }

  lemma Quad1Groups(a: Word, u: Word)
    ensures Group0(Octet(a, 3)) == 63 & (a >> 2)
    ensures Group1(Octet(a, 3), Octet(u, 0)) == 63 & ((a << 4) | (u >> 28))
    ensures Group2(Octet(u, 0), Octet(u, 1)) == 63 & (u >> 22)
    ensures Group3(Octet(u, 1)) == 63 & (u >> 16)
  {}

  lemma Quad1Is(a: Word, u: Word)
    ensures Quad1(a, u) == Four(Octet(a, 3), Octet(u, 0), Octet(u, 1))
  {
    hide Symbol, Radix, Octet, Group0, Group1, Group2, Group3;
    Quad1Groups(a, u);
  }

  lemma Quad2Groups(a: Word, u: Word)
    ensures Group0(Octet(a, 2)) == 63 & (a >> 10)
    ensures Group1(Octet(a, 2), Octet(a, 3)) == 63 & (a >> 4)
    ensures Group2(Octet(a, 3), Octet(u, 0)) == 63 & ((a << 2) | (u >> 30))
    ensures Group3(Octet(u, 0)) == 63 & (u >> 24)
  {}

  lemma Quad2Is(a: Word, u: Word)
    ensures Quad2(a, u) == Four(Octet(a, 2), Octet(a, 3), Octet(u, 0))
  {
    hide Symbol, Radix, Octet, Group0, Group1, Group2, Group3;
    Quad2Groups(a, u);
  }

  lemma Quad3Groups(a: Word)
    ensures Group0(Octet(a, 1)) == 63 & (a >> 18)
    ensures Group1(Octet(a, 1), Octet(a, 2)) == 63 & (a >> 12)
    ensures Group2(Octet(a, 2), Octet(a, 3)) == 63 & (a >> 6)
    ensures Group3(Octet(a, 3)) == 63 & a
  {}

  lemma Quad3Is(a: Word)
    ensures Quad3(a) == Four(Octet(a, 1), Octet(a, 2), Octet(a, 3))
  {
    hide Symbol, Radix, Octet, Group0, Group1, Group2, Group3;
    Quad3Groups(a);
  }

  lemma Pad1Groups(a: Word)
    ensures Group0(Octet(a, 3)) == 63 & (a >> 2)
    ensures Group1(Octet(a, 3), 0) == 63 & (a << 4)
  {}

  lemma Pad1Is(a: Word)
    ensures Pad1(a) == Four(Octet(a, 3), 0, 0)[..2] + "=="
  {
    hide Symbol, Radix, Octet, Group0, Group1, Group2, Group3;
    Pad1Groups(a);
  }

  lemma Pad2Groups(a: Word)
    ensures Group0(Octet(a, 2)) == 63 & (a >> 10)
    ensures Group1(Octet(a, 2), Octet(a, 3)) == 63 & (a >> 4)
    ensures Group2(Octet(a, 3), 0) == 63 & (a << 2)
  {}

  lemma Pad2Is(a: Word)
    ensures Pad2(a) == Four(Octet(a, 2), Octet(a, 3), 0)[..3] + "="
  {
    hide Symbol, Radix, Octet, Group0, Group1, Group2, Group3;
    Pad2Groups(a);
  }

  lemma Associate<X>(a: seq<X>, b: seq<X>, c: seq<X>, d: seq<X>, e: seq<X>)
    ensures a + (b + (c + (d + e))) == a + b + c + d + e
  {}

  lemma Associate4<X>(a: seq<X>, b: seq<X>, c: seq<X>, d: seq<X>)
    ensures a + (b + (c + d)) == a + b + c + d
  {}

  lemma EncodeFour(b: seq<bv8>)
    requires |b| >= 12
    ensures Encode(b)
         == Four(b[0], b[1], b[2]) + Four(b[3], b[4], b[5]) + Four(b[6], b[7], b[8]) + Four(b[9], b[10], b[11])
                         + Encode(b[12..])
  {
    hide Four;
    var c, d, e := b[3..], b[6..], b[9..];
    assert c[3..] == d && d[3..] == e && e[3..] == b[12..];
    var tail := Encode(b[12..]);
    assert Encode(e) == Four(b[9], b[10], b[11]) + tail;
    assert Encode(d) == Four(b[6], b[7], b[8]) + Encode(e);
    assert Encode(c) == Four(b[3], b[4], b[5]) + Encode(d);
    Associate(Four(b[0], b[1], b[2]), Four(b[3], b[4], b[5]), Four(b[6], b[7], b[8]), Four(b[9], b[10], b[11]), tail);
  }

  lemma OctetsTriple(u: seq<Word>)
    requires |u| >= 3
    ensures Octets(u) == WordOctets(u[0]) + WordOctets(u[1]) + WordOctets(u[2]) + Octets(u[3..])
  {
    hide WordOctets, Octets;
    OctetsStep(u);
    OctetsStep(u[1..]);
    OctetsStep(u[2..]);
    assert u[1..][1..] == u[2..] && u[2..][1..] == u[3..];
    var p, q, r, d := WordOctets(u[0]), WordOctets(u[1]), WordOctets(u[2]), Octets(u[3..]);
    assert Octets(u[2..]) == r + d;
    assert Octets(u[1..]) == q + (r + d);
    assert Octets(u) == p + (q + (r + d));
    Associate4(p, q, r, d);
  }

  lemma OctetsStep(u: seq<Word>)
    requires |u| > 0
    ensures Octets(u) == WordOctets(u[0]) + Octets(u[1..])
  {}

  // Three words are four groups of three bytes.
  lemma EncodeTriple(u: seq<Word>)
    requires |u| >= 3
    ensures Encode(Octets(u))
         == Quad0(u[0]) + Quad1(u[0], u[1]) + Quad2(u[1], u[2]) + Quad3(u[2]) + Encode(Octets(u[3..]))
  {
    hide Four, Octet, Quad0, Quad1, Quad2, Quad3;
    var b := Octets(u);
    OctetsTriple(u);
    EncodeFour(b);
    assert b[12..] == Octets(u[3..]);
    Quad0Is(u[0]);
    Quad1Is(u[0], u[1]);
    Quad2Is(u[1], u[2]);
    Quad3Is(u[2]);
  }

  // What is left after whole triples: one word is eight characters, two are twelve.
  lemma EncodeOne(w: Word)
    ensures Encode(Octets([w])) == Quad0(w) + Pad1(w)
  {
    hide Four, Octet, Quad0, Pad1;
    var b := Octets([w]);
    assert Octets([w][1..]) == [];
    assert b == [Octet(w, 0), Octet(w, 1), Octet(w, 2), Octet(w, 3)];
    assert b[3..] == [Octet(w, 3)];
    Quad0Is(w);
    Pad1Is(w);
  }

  lemma EncodeTwo(v: Word, w: Word)
    ensures Encode(Octets([v, w])) == Quad0(v) + Quad1(v, w) + Pad2(w)
  {
    hide Four, Octet, Quad0, Quad1, Pad2;
    var b := Octets([v, w]);
    assert [v, w][1..] == [w] && Octets([w][1..]) == [];
    assert Octets([w]) == [Octet(w, 0), Octet(w, 1), Octet(w, 2), Octet(w, 3)];
    assert b == [Octet(v, 0), Octet(v, 1), Octet(v, 2), Octet(v, 3),
                 Octet(w, 0), Octet(w, 1), Octet(w, 2), Octet(w, 3)];
    var c := b[3..];
    assert c[3..] == [Octet(w, 2), Octet(w, 3)];
    assert Encode(c[3..]) == Pad2(w) by { Pad2Is(w); }
    assert Encode(c) == Quad1(v, w) + Pad2(w) by { Quad1Is(v, w); }
    Quad0Is(v);
  }
}
