/** The streaming hash of src/crypt.cpp: `sha1_state` and the `Hash` wrapper around it. */
module Sha1State {
  import opened MachineTypes
  import opened Sha1Spec

  /** The code's rewritten forms of Ch and Maj compute the FIPS 180-4 functions. */
  lemma ChForm(b: Word, c: Word, d: Word)
    ensures d ^ (b & (c ^ d)) == Ch(b, c, d)
  {}

  lemma MajForm(b: Word, c: Word, d: Word)
    ensures (b & c) | (d & (b | c)) == Maj(b, c, d)
  {}

  // A round's new word as the source adds it up.
  function Sum(f: Word, a: Word, e: Word, w: Word, k: Word): Word { f + (a + e + w + k) }

  /** Modulo 2^32 the source's order of summing a round's five terms does not matter. */
  lemma SumForm(a: Word, f: Word, e: Word, k: Word, w: Word)
    ensures Sum(f, a, e, w, k) == T(a, f, e, k, w)
  {}

  lemma RoundsSnoc(r: Regs, ws: seq<Word>, i: nat)
    requires i < |ws|
    ensures Rounds(r, ws[..i + 1]) == Round(Rounds(r, ws[..i]), i, ws[i])
  {
    assert ws[..i + 1][..i] == ws[..i];
  }

  lemma ScheduleStep(block: seq<bv8>, t: nat)
    requires |block| == 64 && t < 80
    ensures t < 16 ==> Schedule(block)[t] == BlockWord(block, t)
    ensures t >= 16 ==>
              var s := Schedule(block); s[t] == Rotl1(s[t - 3] ^ s[t - 8] ^ s[t - 14] ^ s[t - 16])
  {}

  lemma RoundsNone(h: Regs, ws: seq<Word>)
    ensures Rounds(h, ws[..0]) == h
  {}

  // A round in each of the four phases, with the code's form of the phase's function.
  lemma ChRound(r: Regs, t: nat, w: Word)
    requires t < 20
    ensures Round(r, t, w)
         == Regs(Sum(r.d ^ (r.b & (r.c ^ r.d)), Rotl5(r.a), r.e, w, 0x5a827999), r.a, Rotl30(r.b), r.c, r.d)
  {
    hide Rotl5, Rotl30, Sum, T, Ch;
    ChForm(r.b, r.c, r.d);
    SumForm(Rotl5(r.a), Ch(r.b, r.c, r.d), r.e, 0x5a827999, w);
  }

  lemma FirstParityRound(r: Regs, t: nat, w: Word)
    requires 20 <= t < 40
    ensures Round(r, t, w) == Regs(Sum(r.b ^ r.c ^ r.d, Rotl5(r.a), r.e, w, 0x6ed9eba1), r.a, Rotl30(r.b), r.c, r.d)
  {
    hide Rotl5, Rotl30, Sum, T;
    SumForm(Rotl5(r.a), r.b ^ r.c ^ r.d, r.e, 0x6ed9eba1, w);
  }

  lemma MajRound(r: Regs, t: nat, w: Word)
    requires 40 <= t < 60
    ensures Round(r, t, w)
         == Regs(Sum((r.b & r.c) | (r.d & (r.b | r.c)), Rotl5(r.a), r.e, w, 0x8f1bbcdc), r.a, Rotl30(r.b), r.c, r.d)
  {
    hide Rotl5, Rotl30, Sum, T, Maj;
    MajForm(r.b, r.c, r.d);
    SumForm(Rotl5(r.a), Maj(r.b, r.c, r.d), r.e, 0x8f1bbcdc, w);
  }

  lemma LastParityRound(r: Regs, t: nat, w: Word)
    requires 60 <= t
    ensures Round(r, t, w) == Regs(Sum(r.b ^ r.c ^ r.d, Rotl5(r.a), r.e, w, 0xca62c1d6), r.a, Rotl30(r.b), r.c, r.d)
  {
    hide Rotl5, Rotl30, Sum, T;
    SumForm(Rotl5(r.a), r.b ^ r.c ^ r.d, r.e, 0xca62c1d6, w);
  }

  /** Adding a block at the end of the blocks already folded in. */
  lemma FoldSnoc(h: Regs, blocks: seq<bv8>, block: seq<bv8>)
    requires |blocks| % 64 == 0 && |block| == 64
    ensures |blocks + block| % 64 == 0
    ensures Fold(h, blocks + block) == Compress(Fold(h, blocks), block)
  {
    assert (blocks + block)[..|blocks + block| - 64] == blocks;
    assert (blocks + block)[|blocks + block| - 64..] == block;
  }

  // The place of the next byte in the buffer, and the byte count as the source keeps it.
  function Position(n: nat): (p: nat)
    ensures p < 64
  {
    n % 64
  }

  function Count(n: nat): uint64 { n % TWO_TO_THE_64 }

  class Sha1State {
    var hash: Regs  // the source's five words `hash[0..5]`
    var len: uint64
    const mc: array<bv8>

    // The bytes added since `Init`, and the bytes of all blocks compressed since then.
    ghost var message: seq<bv8>
    ghost var fed: seq<bv8>

    /** `hash` is the fold over the blocks fed so far. */
    ghost predicate Folded()
      reads this
    {
      mc.Length == 64 && |fed| % 64 == 0 && hash == Fold(H0, fed)
    }

    /** Between `Init` and `EndMessage`: every whole block of the message has been fed, and
        the front of `mc` holds the bytes after them. */
    ghost predicate Valid()
      reads this, mc
    {
      && Folded()
      && len == Count(|message|)
      && fed + mc[..Position(|message|)] == message
    }

    constructor ()
      ensures mc.Length == 64 && fresh(mc)
    {
      mc := new bv8[64];
      hash, len := Regs(0, 0, 0, 0, 0), 0;
      message, fed := [], [];
    }

    method Init()
      requires mc.Length == 64
      modifies this
      ensures Valid() && message == [] && fed == [] && hash == H0
    {
      hash := Regs(0x67452301, 0xefcdab89, 0x98badcfe, 0x10325476, 0xc3d2e1f0);
      len := 0;
      message, fed := [], [];
    }

    // The source's first two loops: the message schedule.
    method MakeSchedule() returns (w: array<Word>)
      requires mc.Length == 64
      ensures fresh(w) && w[..] == Schedule(mc[..])
    {
      hide Schedule, Rotl1;
      w := new Word[80];
      ghost var block := mc[..];
      var i := 0;
      while i < 16
        invariant 0 <= i <= 16
        invariant forall t :: 0 <= t < i ==> w[t] == Schedule(block)[t]
      {
        w[i] := (mc[i * 4] as Word << 24) | (mc[i * 4 + 1] as Word << 16)
                | (mc[i * 4 + 2] as Word << 8) | mc[i * 4 + 3] as Word;
        assert w[i] == BlockWord(block, i);
        ScheduleStep(block, i);
        i := i + 1;
      }
      while i < 80
        invariant 16 <= i <= 80
        invariant forall t :: 0 <= t < i ==> w[t] == Schedule(block)[t]
      {
        var f := w[i - 3] ^ w[i - 8] ^ w[i - 14] ^ w[i - 16];
        w[i] := Rotl1(f);
        ScheduleStep(block, i);
        i := i + 1;
      }
    }

    // Rounds 0 to 19, on the five working variables.
    static method ChRounds(w: array<Word>, ghost h: Regs, r: Regs) returns (r': Regs)
      requires w.Length == 80 && r == Rounds(h, w[..][..0])
      ensures r' == Rounds(h, w[..][..20])
    {
      hide Rounds, Round, Rotl5, Rotl30, Sum;
      ghost var ws := w[..];
      var Regs(a, b, c, d, e) := r;
      var i := 0;
      while i < 20
        invariant 0 <= i <= 20
        invariant Regs(a, b, c, d, e) == Rounds(h, ws[..i])
      {
        RoundsSnoc(h, ws, i);
        ChRound(Regs(a, b, c, d, e), i, w[i]);
        var f := d ^ (b & (c ^ d));
        f := Sum(f, Rotl5(a), e, w[i], 0x5a827999);
        e, d, c, b, a := d, c, Rotl30(b), a, f;
        i := i + 1;
      }
      r' := Regs(a, b, c, d, e);
    }

    // Rounds 20 to 39, on the five working variables.
    static method FirstParityRounds(w: array<Word>, ghost h: Regs, r: Regs) returns (r': Regs)
      requires w.Length == 80 && r == Rounds(h, w[..][..20])
      ensures r' == Rounds(h, w[..][..40])
    {
      hide Rounds, Round, Rotl5, Rotl30, Sum;
      ghost var ws := w[..];
      var Regs(a, b, c, d, e) := r;
      var i := 20;
      while i < 40
        invariant 20 <= i <= 40
        invariant Regs(a, b, c, d, e) == Rounds(h, ws[..i])
      {
        RoundsSnoc(h, ws, i);
        FirstParityRound(Regs(a, b, c, d, e), i, w[i]);
        var f := b ^ c ^ d;
        f := Sum(f, Rotl5(a), e, w[i], 0x6ed9eba1);
        e, d, c, b, a := d, c, Rotl30(b), a, f;
        i := i + 1;
      }
      r' := Regs(a, b, c, d, e);
    }

    // Rounds 40 to 59, on the five working variables.
    static method MajRounds(w: array<Word>, ghost h: Regs, r: Regs) returns (r': Regs)
      requires w.Length == 80 && r == Rounds(h, w[..][..40])
      ensures r' == Rounds(h, w[..][..60])
    {
      hide Rounds, Round, Rotl5, Rotl30, Sum;
      ghost var ws := w[..];
      var Regs(a, b, c, d, e) := r;
      var i := 40;
      while i < 60
        invariant 40 <= i <= 60
        invariant Regs(a, b, c, d, e) == Rounds(h, ws[..i])
      {
        RoundsSnoc(h, ws, i);
        MajRound(Regs(a, b, c, d, e), i, w[i]);
        var f := (b & c) | (d & (b | c));
        f := Sum(f, Rotl5(a), e, w[i], 0x8f1bbcdc);
        e, d, c, b, a := d, c, Rotl30(b), a, f;
        i := i + 1;
      }
      r' := Regs(a, b, c, d, e);
    }

    // Rounds 60 to 79, on the five working variables.
    static method LastParityRounds(w: array<Word>, ghost h: Regs, r: Regs) returns (r': Regs)
      requires w.Length == 80 && r == Rounds(h, w[..][..60])
      ensures r' == Rounds(h, w[..][..80])
    {
      hide Rounds, Round, Rotl5, Rotl30, Sum;
      ghost var ws := w[..];
      var Regs(a, b, c, d, e) := r;
      var i := 60;
      while i < 80
        invariant 60 <= i <= 80
        invariant Regs(a, b, c, d, e) == Rounds(h, ws[..i])
      {
        RoundsSnoc(h, ws, i);
        LastParityRound(Regs(a, b, c, d, e), i, w[i]);
        var f := b ^ c ^ d;
        f := Sum(f, Rotl5(a), e, w[i], 0xca62c1d6);
        e, d, c, b, a := d, c, Rotl30(b), a, f;
        i := i + 1;
      }
      r' := Regs(a, b, c, d, e);
    }

    method BlockUpdate()
      requires Folded()
      modifies this`fed, this`hash
      ensures Folded() && fed == old(fed) + mc[..]
      ensures hash == Compress(old(hash), mc[..])
    {
      var w := MakeSchedule();
      RoundsNone(hash, w[..]);
      assert w[..][..80] == w[..];
      var r := ChRounds(w, hash, hash);
      r := FirstParityRounds(w, hash, r);
      r := MajRounds(w, hash, r);
      r := LastParityRounds(w, hash, r);
      FoldSnoc(H0, fed, mc[..]);
      hash := AddRegs(hash, r);
      fed := fed + mc[..];
    }

    /** One turn of the source's byte loop: store at the running position, compress when full. */
    method AddByte(x: bv8, cl: uint64) returns (cl': uint64)
      requires Folded() && cl == Count(|message|) && fed + mc[..Position(|message|)] == message
      modifies this`fed, this`hash, this`message, mc
      ensures Folded() && cl' == Count(|message|) && fed + mc[..Position(|message|)] == message
      ensures message == old(message) + [x]
    {
      hide Fold, Compress, Position, Count;
      LengthStep(|message|);
      LengthStep(|message| + 1);
      mc[Position(cl)] := x;
      cl' := Count(cl as int + 1);
      message := message + [x];
      if Position(cl') == 0 {
        BlockUpdate();
        assert mc[..64] == mc[..] && mc[..0] == [];
      }
    }

    method AddMessage(m: array?<bv8>, nbytes: nat)
      requires Valid() && (m != null ==> nbytes <= m.Length && m != mc)
      modifies this`len, this`fed, this`hash, this`message, mc
      ensures Valid() && message == old(message) + if m == null then [] else m[..nbytes]
    {
      if m == null || nbytes == 0 {
        return;
      }
      var cl := len;
      var k := 0;
      while k < nbytes
        invariant 0 <= k <= nbytes
        invariant Folded() && cl == Count(|message|) && fed + mc[..Position(|message|)] == message
        invariant message == old(message) + m[..k]
      {
        cl := AddByte(m[k], cl);
        k := k + 1;
      }
      len := cl;
    }

    // The source's last eight stores: the length in bits, most significant byte first.
    method StoreLength()
      requires mc.Length == 64
      modifies mc
      ensures mc[..] == old(mc[..56]) + BigEndian64(len)
    {
      hide ToByte;
      ghost var front := mc[..56];
      StoreHalf(56, ToByte(len, 0x100_0000_0000_0000), ToByte(len, 0x1_0000_0000_0000),
                ToByte(len, 0x100_0000_0000), ToByte(len, 0x1_0000_0000));
      assert mc[..60] == front + mc[56..60];
      StoreHalf(60, ToByte(len, 0x100_0000), ToByte(len, 0x1_0000), ToByte(len, 0x100), ToByte(len, 1));
      assert mc[56..60] + mc[60..64] == BigEndian64(len);
      assert mc[..] == front + (mc[56..60] + mc[60..64]);
    }

    method StoreHalf(at: nat, b0: bv8, b1: bv8, b2: bv8, b3: bv8)
      requires at + 4 <= mc.Length
      modifies mc
      ensures mc[..at] == old(mc[..at]) && mc[at..at + 4] == [b0, b1, b2, b3]
    {
      mc[at] := b0;
      mc[at + 1] := b1;
      mc[at + 2] := b2;
      mc[at + 3] := b3;
    }

    // One turn of the source's zero-filling loop; `text` is what has been fed or is in `mc`.
    method AddZero(cl: uint64, ghost text: seq<bv8>) returns (cl': uint64)
      requires |text| > 0 && cl == Count(|text|)
      requires Folded() && fed + mc[..FrontLength(|text|)] == text
      modifies this`fed, this`hash, mc
      ensures cl' == Count(|text| + 1)
      ensures Folded() && fed + mc[..FrontLength(|text| + 1)] == text + [0x00]
    {
      hide Fold, Compress, Position, Count;
      LengthStep(|text|);
      if Position(cl) == 0 {
        assert mc[..64] == mc[..];
        BlockUpdate();
      }
      mc[Position(cl)] := 0x00;
      cl' := Count(cl as int + 1);
    }

    // The 0x80 byte and the zeros after it, up to the place of the length.
    method AddPadding()
      requires Valid()
      modifies this`fed, this`hash, mc
      ensures Folded() && fed + mc[..56] == message + Filler(ZeroCount(|message|))
    {
      hide Fold, Compress, Position, Count;
      ghost var n := |message|;
      LengthStep(n);
      var cl := len;
      mc[Position(cl)] := 0x80;
      cl := Count(cl as int + 1);
      ghost var text := message + [0x80];
      ghost var k := 0;
      PadRuns(n, 0);
      while Position(cl) != 56
        invariant 0 <= k <= ZeroCount(n) && text == message + Filler(k) && cl == Count(n + 1 + k)
        invariant (Position(cl) != 56 <==> k != ZeroCount(n)) && Position(n + 1 + k) == Position(cl)
        invariant Folded() && fed + mc[..FrontLength(n + 1 + k)] == text
        decreases ZeroCount(n) - k
      {
        cl := AddZero(cl, text);
        FillerNext(message, k);
        text, k := text + [0x00], k + 1;
        PadRuns(n, k);
      }
    }

    /** Finishing feeds exactly the blocks of the padded message, so `hash` is its SHA-1. */
    method EndMessage()
      requires Valid()
      modifies this`len, this`fed, this`hash, mc
      ensures Folded() && fed == Pad(message) && hash == Sha1(message)
    {
      hide Fold, Compress, BigEndian64, Position, Count;
      AddPadding();
      len := Count(len * 8);
      BitLengthWraps(|message|);
      StoreLength();
      BlockUpdate();
    }
  }

  // Where the zero-filling loop is after `k` zeros, and whether it goes on.
  lemma PadRuns(n: nat, k: nat)
    requires k <= ZeroCount(n)
    ensures Position(Count(n + 1 + k)) == 56 <==> k == ZeroCount(n)
    ensures Position(Count(n + 1 + k)) == Position(n + 1 + k)
  {
    LengthStep(n + 1 + k);
    PadLength(seq(n, _ => 0));
    if (n + 1 + k) % 64 == 56 {
      ZeroCountIsLeast(n, k);
    }
  }

  lemma FillerNext(m: seq<bv8>, k: nat)
    ensures m + Filler(k) + [0x00] == m + Filler(k + 1)
  {}

  lemma BitLengthWraps(n: nat)
    ensures Count(Count(n) * 8) == BitLength(n)
  {
    AddMultiple(n % TWO_TO_THE_64 * 8, 8 * (n / TWO_TO_THE_64));
  }

  // How much of `mc` is in use after `n` bytes when a full block is compressed late.
  function FrontLength(n: nat): nat {
    if n > 0 && Position(n) == 0 then 64 else Position(n)
  }

  /** The byte count wraps at 2^64 without losing the position within a block. */
  lemma LengthStep(n: nat)
    ensures Position(Count(n)) == Position(n)
    ensures Count(Count(n) + 1) == Count(n + 1)
    ensures Position(n + 1) == if Position(n) == 63 then 0 else Position(n) + 1
  {
    PositionKept(n);
    CountStep(n);
    PositionStep(n);
  }

  lemma PositionKept(n: nat)
    ensures n % TWO_TO_THE_64 % 64 == n % 64
  {
    SameResidue64(n % TWO_TO_THE_64, 0x400_0000_0000_0000 * (n / TWO_TO_THE_64));
  }

  lemma CountStep(n: nat)
    ensures (n % TWO_TO_THE_64 + 1) % TWO_TO_THE_64 == (n + 1) % TWO_TO_THE_64
  {
    AddMultiple(n % TWO_TO_THE_64 + 1, n / TWO_TO_THE_64);
  }

  lemma PositionStep(n: nat)
    ensures (n + 1) % 64 == if n % 64 == 63 then 0 else n % 64 + 1
  {}

  lemma SameResidue64(x: int, k: int)
    ensures (x + 64 * k) % 64 == x % 64
  {}

  lemma AddMultiple(x: int, k: int)
    ensures (x + TWO_TO_THE_64 * k) % TWO_TO_THE_64 == x % TWO_TO_THE_64
  {}
}
