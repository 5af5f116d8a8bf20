/** SHA-1 as FIPS 180-4 states it: the reference against which `Sha1State` is proved. */
module Sha1Spec {
  import opened MachineTypes

  type Word = bv32
  datatype Regs = Regs(a: Word, b: Word, c: Word, d: Word, e: Word)

  // Section 3.2, item 5 (the only two amounts SHA-1 uses beside 1).
  function Rotl1(x: Word): Word { (x << 1) | (x >> 31) }
  function Rotl5(x: Word): Word { (x << 5) | (x >> 27) }
  function Rotl30(x: Word): Word { (x << 30) | (x >> 2) }

  /** The three rotations, in full. */
  lemma RotationsAre(x: Word)
    ensures Rotl1(x) == x.RotateLeft(1) && Rotl5(x) == x.RotateLeft(5) && Rotl30(x) == x.RotateLeft(30)
  {}

  // Section 4.1.1.
  function Ch(x: Word, y: Word, z: Word): Word { (x & y) ^ (!x & z) }
  function Parity(x: Word, y: Word, z: Word): Word { x ^ y ^ z }
  function Maj(x: Word, y: Word, z: Word): Word { (x & y) ^ (x & z) ^ (y & z) }

  function F(t: nat, x: Word, y: Word, z: Word): Word {
    if t < 20 then Ch(x, y, z) else if t < 40 then Parity(x, y, z) else if t < 60 then Maj(x, y, z) else Parity(x, y, z)
  }

  /** On any choice `m` of bits `Ch` takes those of `y` where `x` has ones and those of `z` where it has
      zeros. */
  lemma ChIs(m: Word, x: Word, y: Word, z: Word)
    ensures x & m == m ==> Ch(x, y, z) & m == y & m
    ensures x & m == 0 ==> Ch(x, y, z) & m == z & m
  {}

  /** `Maj` has the bits that two of its arguments share, so any two that are equal decide. */
  lemma MajIs(x: Word, y: Word, z: Word)
    ensures Maj(x, y, z) == (x & y) | (x & z) | (y & z)
    ensures Maj(x, x, z) == Maj(x, z, x) == Maj(z, x, x) == x
  {}

  // Section 4.2.1.
  function K(t: nat): Word {
    if t < 20 then 0x5a827999 else if t < 40 then 0x6ed9eba1 else if t < 60 then 0x8f1bbcdc else 0xca62c1d6
  }

  // The number under the square root in each phase.
  function RootOf(t: nat): nat { if t < 20 then 2 else if t < 40 then 3 else if t < 60 then 5 else 10 }

  /** The constants are the square roots of 2, 3, 5 and 10 times 2^30, rounded down. */
  lemma ConstantsAre(t: nat)
    ensures var k := K(t) as int; var n := RootOf(t) * 0x1000_0000_0000_0000; k * k <= n < (k + 1) * (k + 1)
  {}

  // Section 5.2.1: a block is sixteen big-endian words.
  function BlockWord(block: seq<bv8>, i: nat): Word
    requires |block| == 64 && i < 16
  {
    (block[4 * i] as Word << 24) | (block[4 * i + 1] as Word << 16) | (block[4 * i + 2] as Word << 8)
        | block[4 * i + 3] as Word
  }

  // Section 6.1.2, step 1: the message schedule.
  function W(block: seq<bv8>, t: nat): Word
    requires |block| == 64 && t < 80
  {
    if t < 16 then BlockWord(block, t)
    else Rotl1(W(block, t - 3) ^ W(block, t - 8) ^ W(block, t - 14) ^ W(block, t - 16))
  }

  // Section 3.2, item 1: addition modulo 2^32.
  function Add(x: Word, y: Word): Word { x + y }

  // The temporary T of section 6.1.2, step 3.
  function T(a: Word, f: Word, e: Word, k: Word, w: Word): Word { a + f + e + k + w }

  // Section 6.1.2, step 3: one of the eighty rounds.
  function Round(r: Regs, t: nat, w: Word): Regs {
    Regs(T(Rotl5(r.a), F(t, r.b, r.c, r.d), r.e, K(t), w), r.a, Rotl30(r.b), r.c, r.d)
  }

  // All schedule words of a block, and the rounds over the first of them.
  function Schedule(block: seq<bv8>): (ws: seq<Word>)
    requires |block| == 64
    ensures |ws| == 80
  {
    seq(80, t requires 0 <= t < 80 => W(block, t))
  }

  function Rounds(r: Regs, ws: seq<Word>): Regs {
    if |ws| == 0 then r else Round(Rounds(r, ws[..|ws| - 1]), |ws| - 1, ws[|ws| - 1])
  }

  function AddRegs(h: Regs, r: Regs): Regs {
    Regs(Add(h.a, r.a), Add(h.b, r.b), Add(h.c, r.c), Add(h.d, r.d), Add(h.e, r.e))
  }

  // Section 6.1.2, step 4: the hash value after one more block.
  function Compress(h: Regs, block: seq<bv8>): Regs
    requires |block| == 64
  {
    AddRegs(h, Rounds(h, Schedule(block)))
  }

  // ---- Every round can be undone ----

  // The oldest register, from the new word that a round made of it and of the others.
  function Oldest(x: Word, a: Word, f: Word, k: Word, w: Word): Word { x - (a + f + k + w) }

  function UndoRound(r: Regs, t: nat, w: Word): Regs {
    var b := r.c.RotateLeft(2);
    Regs(r.b, b, r.d, r.e, Oldest(r.a, r.b.RotateLeft(5), F(t, b, r.d, r.e), K(t), w))
  }

  function UndoRounds(r: Regs, ws: seq<Word>): Regs
    decreases |ws|
  {
    if |ws| == 0 then r else UndoRounds(UndoRound(r, |ws| - 1, ws[|ws| - 1]), ws[..|ws| - 1])
  }

  lemma TurnBack(x: Word)
    ensures Rotl30(x).RotateLeft(2) == x && Rotl5(x) == x.RotateLeft(5)
  {}

  lemma OldestIs(a: Word, f: Word, e: Word, k: Word, w: Word)
    ensures Oldest(a + f + e + k + w, a, f, k, w) == e
  {}

  lemma OldestBack(a: Word, f: Word, e: Word, k: Word, w: Word)
    ensures Oldest(T(a, f, e, k, w), a, f, k, w) == e
  {
    hide Oldest;
    OldestIs(a, f, e, k, w);
  }

  lemma UndoOne(r: Regs, t: nat, w: Word)
    ensures UndoRound(Round(r, t, w), t, w) == r
  {
    hide Rotl5, Rotl30, T, F, K, Oldest;
    TurnBack(r.a);
    TurnBack(r.b);
    OldestBack(Rotl5(r.a), F(t, r.b, r.c, r.d), r.e, K(t), w);
  }

  lemma {:induction false} UndoAll(r: Regs, ws: seq<Word>)
    ensures UndoRounds(Rounds(r, ws), ws) == r
  {
    hide Round, UndoRound;
    if |ws| > 0 {
      UndoOne(Rounds(r, ws[..|ws| - 1]), |ws| - 1, ws[|ws| - 1]);
      UndoAll(r, ws[..|ws| - 1]);
    }
  }

  function Subtract(x: Word, y: Word): Word { x - y }

  function SubtractRegs(x: Regs, h: Regs): Regs {
    Regs(Subtract(x.a, h.a), Subtract(x.b, h.b), Subtract(x.c, h.c), Subtract(x.d, h.d), Subtract(x.e, h.e))
  }

  lemma SumLess(x: Word, y: Word)
    ensures Subtract(x + y, x) == y
  {}

  lemma Cancels(x: Word, y: Word)
    ensures Subtract(Add(x, y), x) == y
  {
    hide Subtract;
    SumLess(x, y);
  }

  lemma SubtractAdded(h: Regs, r: Regs)
    ensures SubtractRegs(AddRegs(h, r), h) == r
  {
    hide Add, Subtract;
    Cancels(h.a, r.a);
    Cancels(h.b, r.b);
    Cancels(h.c, r.c);
    Cancels(h.d, r.d);
    Cancels(h.e, r.e);
  }

  /** A block is taken in by eighty rounds that start from the hash value so far and that can be undone,
      to which this hash value is added: taking it off and undoing the rounds gives it back. */
  lemma CompressFeedsForward(h: Regs, block: seq<bv8>)
    requires |block| == 64
    ensures UndoRounds(SubtractRegs(Compress(h, block), h), Schedule(block)) == h
  {
    hide Rounds, UndoRounds, Schedule, AddRegs, SubtractRegs;
    SubtractAdded(h, Rounds(h, Schedule(block)));
    UndoAll(h, Schedule(block));
  }

  // Section 5.3.1.
  const H0: Regs := Regs(0x67452301, 0xefcdab89, 0x98badcfe, 0x10325476, 0xc3d2e1f0)

  /** The initial value by its bytes, the least significant first: they run from 01 23 up to ef, back
      down to 10, and on from f0 to c3. */
  lemma InitialIs()
    ensures LowFirst(H0.a) == [0x01, 0x23, 0x45, 0x67] && LowFirst(H0.b) == [0x89, 0xab, 0xcd, 0xef]
    ensures LowFirst(H0.c) == [0xfe, 0xdc, 0xba, 0x98] && LowFirst(H0.d) == [0x76, 0x54, 0x32, 0x10]
    ensures LowFirst(H0.e) == [0xf0, 0xe1, 0xd2, 0xc3]
  {}

  function LowFirst(x: Word): seq<Word> { [x & 0xff, (x >> 8) & 0xff, (x >> 16) & 0xff, x >> 24] }

  function Fold(h: Regs, blocks: seq<bv8>): Regs
    requires |blocks| % 64 == 0
  {
    if |blocks| == 0 then h
    else Compress(Fold(h, blocks[..|blocks| - 64]), blocks[|blocks| - 64..])
  }

  // The bit 1 and `k` more bytes of zeros.
  function Filler(k: nat): (f: seq<bv8>)
    ensures |f| == 1 + k
  {
    [0x80] + seq(k, _ => 0)
  }

  // The byte of weight `p` of a number, and its place in the message buffer.
  function Digit(n: nat, p: nat): nat
    requires p > 0
  {
    n / p % 0x100
  }

  function ToByte(n: nat, p: nat): bv8
    requires p > 0
  {
    AsByte(n / p % 0x100)
  }

  function AsByte(x: uint8): bv8 { x as bv8 }

  function ByteValue(b: bv8): nat { b as int }

  lemma ToByteValue(n: nat, p: nat)
    requires p > 0
    ensures ByteValue(ToByte(n, p)) == Digit(n, p)
  {
    hide AsByte, ByteValue;
    AsByteValue(n / p % 0x100);
  }

  lemma AsByteValue(x: uint8)
    ensures ByteValue(AsByte(x)) == x
  {
    ByteRoundTrip(x);
  }

  lemma ByteRoundTrip(x: uint8)
    ensures (x as bv8) as int == x
  {
    assert x % 0x100 == x;
  }

  // A 64-bit quantity, most significant byte first.
  function BigEndian64(n: uint64): (b: seq<bv8>)
    ensures |b| == 8
  {
    [ToByte(n, 0x100_0000_0000_0000), ToByte(n, 0x1_0000_0000_0000),
     ToByte(n, 0x100_0000_0000), ToByte(n, 0x1_0000_0000),
     ToByte(n, 0x100_0000), ToByte(n, 0x1_0000), ToByte(n, 0x100), ToByte(n, 1)]
  }

  // The number of zero bytes of section 5.1.1 for a message of `n` bytes.
  function ZeroCount(n: nat): nat { (119 - n % 64) % 64 }

  // The message length in bits as the final block holds it. Section 5.1.1 defines padding
  // below 2^64 bits only; above that the field keeps the low 64 bits.
  function BitLength(n: nat): uint64 { 8 * n % TWO_TO_THE_64 }

  // Section 5.1.1.
  function Pad(m: seq<bv8>): seq<bv8> {
    m + Filler(ZeroCount(|m|)) + BigEndian64(BitLength(|m|))
  }

  // Section 6.1.2 over the whole padded message.
  function Sha1(m: seq<bv8>): Regs {
    PadLength(m);
    Fold(H0, Pad(m))
  }

  /** Padding always ends on a block boundary, in (n + 8) / 64 + 1 blocks. */
  lemma PadLength(m: seq<bv8>)
    ensures |Pad(m)| % 64 == 0 && |Pad(m)| == 64 * ((|m| + 8) / 64 + 1)
    ensures (|m| + 1 + ZeroCount(|m|)) % 64 == 56
  {
    hide BigEndian64;
    var q, r := |m| / 64, |m| % 64;
    assert |Pad(m)| == |m| + 1 + ZeroCount(|m|) + 8;
    if r < 56 {
      assert ZeroCount(|m|) == 55 - r;
      assert |m| + 1 + ZeroCount(|m|) == 64 * q + 56;
    } else {
      assert ZeroCount(|m|) == 119 - r;
      assert |m| + 1 + ZeroCount(|m|) == 64 * (q + 1) + 56;
    }
  }

  /** The number of zero bytes is the least one that leaves 56 bytes (448 bits) in the last block. */
  lemma ZeroCountIsLeast(n: nat, k: nat)
    requires (n + 1 + k) % 64 == 56
    ensures ZeroCount(n) <= k
  {
    var z := ZeroCount(n);
    assert n == 64 * (n / 64) + n % 64;
    assert (n % 64 + 1 + k) % 64 == 56;
  }

  function Weigh(a: nat, b: nat, c: nat, d: nat, e: nat, f: nat, g: nat, h: nat): nat {
    a * 0x100_0000_0000_0000 + b * 0x1_0000_0000_0000 + c * 0x100_0000_0000 + d * 0x1_0000_0000
    + e * 0x100_0000 + f * 0x1_0000 + g * 0x100 + h
  }

  function BigEndianValue(b: seq<bv8>): nat
    requires |b| == 8
  {
    Weigh(ByteValue(b[0]), ByteValue(b[1]), ByteValue(b[2]), ByteValue(b[3]),
          ByteValue(b[4]), ByteValue(b[5]), ByteValue(b[6]), ByteValue(b[7]))
  }

  lemma Base256(n: uint64)
    ensures n == Weigh(Digit(n, 0x100_0000_0000_0000), Digit(n, 0x1_0000_0000_0000), Digit(n, 0x100_0000_0000),
                       Digit(n, 0x1_0000_0000), Digit(n, 0x100_0000), Digit(n, 0x1_0000), Digit(n, 0x100), Digit(n, 1))
  {
    hide Digit;
    TwoDigits(n);
    var x := n / 0x1_0000;
    var y := x / 0x1_0000;
    TwoDigits(x);
    TwoDigits(y);
    TwoDigits(y / 0x1_0000);
    HigherDigits(n);
  }

  lemma TwoDigits(n: nat)
    ensures n == n / 0x1_0000 * 0x1_0000 + Digit(n, 0x100) * 0x100 + Digit(n, 1)
  {
    assert n / 0x1_0000 == n / 0x100 / 0x100;
  }

  // The digits of the upper parts are those of the number.
  lemma HigherDigits(n: uint64)
    ensures var x := n / 0x1_0000; var y := x / 0x1_0000; var z := y / 0x1_0000;
            && Digit(x, 0x100) == Digit(n, 0x100_0000) && Digit(x, 1) == Digit(n, 0x1_0000)
            && Digit(y, 0x100) == Digit(n, 0x100_0000_0000) && Digit(y, 1) == Digit(n, 0x1_0000_0000)
            && Digit(z, 0x100) == Digit(n, 0x100_0000_0000_0000) && Digit(z, 1) == Digit(n, 0x1_0000_0000_0000)
            && z / 0x1_0000 == 0
  {
    Shifts(n);
  }

  lemma Shifts(n: nat)
    ensures n / 0x1_0000 / 0x1_0000 == n / 0x1_0000_0000
    ensures n / 0x1_0000_0000 / 0x1_0000 == n / 0x1_0000_0000_0000
    ensures n / 0x1_0000 / 0x100 == n / 0x100_0000
    ensures n / 0x1_0000_0000 / 0x100 == n / 0x100_0000_0000
    ensures n / 0x1_0000_0000_0000 / 0x100 == n / 0x100_0000_0000_0000
  {}

  /** The length field reads back as the length it was written from. */
  lemma BigEndian64Value(n: uint64)
    ensures BigEndianValue(BigEndian64(n)) == n
  {
    hide Digit, ToByte, ByteValue, Weigh;
    Base256(n);
    ToByteValue(n, 0x100_0000_0000_0000);
    ToByteValue(n, 0x1_0000_0000_0000);
    ToByteValue(n, 0x100_0000_0000);
    ToByteValue(n, 0x1_0000_0000);
    ToByteValue(n, 0x100_0000);
    ToByteValue(n, 0x1_0000);
    ToByteValue(n, 0x100);
    ToByteValue(n, 1);
  }

  /** Two messages are never padded to the same blocks, at any length: equal block counts put
      the lengths within 64 bytes of each other, so the 64-bit field tells them apart. */
  lemma PadInjective(m: seq<bv8>, n: seq<bv8>)
    ensures Pad(m) == Pad(n) ==> m == n
  {
    if Pad(m) == Pad(n) {
      SamePad(m, n);
    }
  }

  lemma SamePad(m: seq<bv8>, n: seq<bv8>)
    requires Pad(m) == Pad(n)
    ensures m == n
  {
    PadLength(m);
    PadLength(n);
    var p := Pad(m);
    assert p[|p| - 8..] == BigEndian64(BitLength(|m|));
    assert Pad(n)[|p| - 8..] == BigEndian64(BitLength(|n|));
    BigEndian64Value(BitLength(|m|));
    BigEndian64Value(BitLength(|n|));
    assert BitLength(|m|) == BitLength(|n|);
    assert |m| == |n| by {
      assert -64 <= |m| - |n| <= 64;
      SameResidue(8 * |m|, 8 * |n|);
    }
    assert m == p[..|m|] && n == Pad(n)[..|n|];
  }

  lemma SameResidue(x: nat, y: nat)
    requires x % TWO_TO_THE_64 == y % TWO_TO_THE_64
    requires -512 <= x - y <= 512
    ensures x == y
  {
    var qx, qy := x / TWO_TO_THE_64, y / TWO_TO_THE_64;
    assert x - y == TWO_TO_THE_64 * (qx - qy);
  }
}
