/** The one-block example published with FIPS 180-4: the message "abc", its schedule, the registers
    after every twenty rounds, and its digest. It ties the definitions of `Sha1Spec` to numbers that
    were not made from them. */
module Sha1Known {
  import opened Sha1Spec
  import opened Sha1State

  const ABC: seq<bv8> := [0x61, 0x62, 0x63]

  ghost predicate Words0(ws: seq<Word>)
    requires |ws| == 80
  {
    && ws[0] == 0x61626380 && ws[1] == 0x00000000 && ws[2] == 0x00000000 && ws[3] == 0x00000000
    && ws[4] == 0x00000000 && ws[5] == 0x00000000 && ws[6] == 0x00000000 && ws[7] == 0x00000000
    && ws[8] == 0x00000000 && ws[9] == 0x00000000 && ws[10] == 0x00000000 && ws[11] == 0x00000000
    && ws[12] == 0x00000000 && ws[13] == 0x00000000 && ws[14] == 0x00000000 && ws[15] == 0x00000018
  }

  ghost predicate Words16(ws: seq<Word>)
    requires |ws| == 80
  {
    && ws[16] == 0xc2c4c700 && ws[17] == 0x00000000 && ws[18] == 0x00000030 && ws[19] == 0x85898e01
    && ws[20] == 0x00000000 && ws[21] == 0x00000060 && ws[22] == 0x0b131c03 && ws[23] == 0x00000030
    && ws[24] == 0x85898ec1 && ws[25] == 0x16263806 && ws[26] == 0x00000000 && ws[27] == 0x00000180
    && ws[28] == 0x2c4c700c && ws[29] == 0x000000f0 && ws[30] == 0x93afb507 && ws[31] == 0x5898e048
  }

  ghost predicate Words32(ws: seq<Word>)
    requires |ws| == 80
  {
    && ws[32] == 0x8e9a9202 && ws[33] == 0x00000600 && ws[34] == 0xb131c0f0 && ws[35] == 0x16263bc6
    && ws[36] == 0x4ebed41e && ws[37] == 0x626380a1 && ws[38] == 0x16263806 && ws[39] == 0x000018c0
    && ws[40] == 0xd2e138c4 && ws[41] == 0x00000f00 && ws[42] == 0x3afb5079 && ws[43] == 0x898e04e5
    && ws[44] == 0xe2ba3c2b && ws[45] == 0x000060c0 && ws[46] == 0x053a37cd && ws[47] == 0x74458547
  }

  ghost predicate Words48(ws: seq<Word>)
    requires |ws| == 80
  {
    && ws[48] == 0xda9415ed && ws[49] == 0x26380a16 && ws[50] == 0x626383a1 && ws[51] == 0x4ebf54de
    && ws[52] == 0x3835b44b && ws[53] == 0x0000f600 && ws[54] == 0x1e84c7a3 && ws[55] == 0x98e04d98
    && ws[56] == 0x651d16a0 && ws[57] == 0x62658ca1 && ws[58] == 0x458544d6 && ws[59] == 0x44584cb7
    && ws[60] == 0x7ba06619 && ws[61] == 0x6380aea2 && ws[62] == 0x0ae55269 && ws[63] == 0x627b49a1
  }

  ghost predicate Words64(ws: seq<Word>)
    requires |ws| == 80
  {
    && ws[64] == 0x7cd45c9d && ws[65] == 0x000f0000 && ws[66] == 0xfb50753a && ws[67] == 0xec6765e8
    && ws[68] == 0xba3c2be2 && ws[69] == 0x0060c000 && ws[70] == 0x3a37cd05 && ws[71] == 0x458546f4
    && ws[72] == 0xb8599dd6 && ws[73] == 0x380a1a26 && ws[74] == 0x01e02203 && ws[75] == 0xe7cc3456
    && ws[76] == 0xe6e60b69 && ws[77] == 0x00f60a00 && ws[78] == 0x5795ef4f && ws[79] == 0x822e0879
  }

  lemma AbcBlock()
    ensures |Pad(ABC)| == 64 && Words0(Schedule(Pad(ABC)))
  {
    PadLength(ABC);
    AbcBytes();
    forall t | 0 <= t < 16 ensures Schedule(Pad(ABC))[t] == BlockWord(Pad(ABC), t) {
      ScheduleStep(Pad(ABC), t);
    }
  }

  lemma AbcBytes()
    ensures |Pad(ABC)| == 64
    ensures var b := Pad(ABC);
            && b[0] == 0x61 && b[1] == 0x62 && b[2] == 0x63 && b[3] == 0x80 && b[63] == 24
            && forall k :: 4 <= k < 63 ==> b[k] == 0
  {
    hide ToByte;
    PadLength(ABC);
    LengthBytes();
    var b := Pad(ABC);
    assert b == ABC + Filler(52) + BigEndian64(24);
    assert b[56..] == BigEndian64(24);
    forall k | 56 <= k < 64 ensures b[k] == BigEndian64(24)[k - 56] {
      assert b[56..][k - 56] == b[k];
    }
  }

  lemma LengthBytes()
    ensures forall k :: 0 <= k < 7 ==> BigEndian64(24)[k] == 0
    ensures BigEndian64(24)[7] == 24
  {
    hide AsByte;
    SmallBytes();
  }

  lemma SmallBytes()
    ensures AsByte(0) == 0 && AsByte(24) == 24
  {}

  ghost predicate Follows(s: seq<Word>, t: nat)
    requires 16 <= t < |s|
  {
    s[t] == Rotl1(s[t - 3] ^ s[t - 8] ^ s[t - 14] ^ s[t - 16])
  }

  lemma Step(block: seq<bv8>, t: nat)
    requires |block| == 64 && 16 <= t < 80
    ensures Follows(Schedule(block), t)
  {
    hide Schedule, Rotl1;
    ScheduleStep(block, t);
  }

  // Four steps of the schedule.
  lemma Steps(block: seq<bv8>, t: nat)
    requires |block| == 64 && 16 <= t <= 76
    ensures var s := Schedule(block); Follows(s, t) && Follows(s, t + 1) && Follows(s, t + 2) && Follows(s, t + 3)
  {
    hide Schedule, Follows;
    Step(block, t);
    Step(block, t + 1);
    Step(block, t + 2);
    Step(block, t + 3);
  }

  lemma AbcWords16(block: seq<bv8>)
    requires |block| == 64 && Words0(Schedule(block))
    ensures Words16(Schedule(block))
  {
    hide Schedule;
    Steps(block, 16);
    Steps(block, 20);
    Steps(block, 24);
    Steps(block, 28);
  }

  lemma AbcWords32(block: seq<bv8>)
    requires |block| == 64 && Words16(Schedule(block))
    ensures Words32(Schedule(block))
  {
    hide Schedule;
    Steps(block, 32);
    Steps(block, 36);
    Steps(block, 40);
    Steps(block, 44);
  }

  lemma AbcWords48(block: seq<bv8>)
    requires |block| == 64 && Words32(Schedule(block))
    ensures Words48(Schedule(block))
  {
    hide Schedule;
    Steps(block, 48);
    Steps(block, 52);
    Steps(block, 56);
    Steps(block, 60);
  }

  lemma AbcWords64(block: seq<bv8>)
    requires |block| == 64 && Words48(Schedule(block))
    ensures Words64(Schedule(block))
  {
    hide Schedule;
    Steps(block, 64);
    Steps(block, 68);
    Steps(block, 72);
    Steps(block, 76);
  }

  lemma AbcRounds20(ws: seq<Word>)
    requires |ws| == 80 && Words0(ws) && Words16(ws)
    ensures Rounds(H0, ws[..20]) == Regs(0xfd9e1d7d, 0xdc64901d, 0x20aa99ca, 0xd3a49608, 0xc82f758b)
  {
    hide Rounds;
    RoundsNone(H0, ws);
    forall t | 0 <= t < 20 ensures Rounds(H0, ws[..t + 1]) == Round(Rounds(H0, ws[..t]), t, ws[t]) {
      RoundsSnoc(H0, ws, t);
    }
  }

  lemma AbcRounds40(ws: seq<Word>)
    requires |ws| == 80 && Words16(ws) && Words32(ws)
    requires Rounds(H0, ws[..20]) == Regs(0xfd9e1d7d, 0xdc64901d, 0x20aa99ca, 0xd3a49608, 0xc82f758b)
    ensures Rounds(H0, ws[..40]) == Regs(0x32de1cba, 0x4c986405, 0xf718e5cf, 0x03d447f6, 0xf72eec32)
  {
    hide Rounds;
    forall t | 20 <= t < 40 ensures Rounds(H0, ws[..t + 1]) == Round(Rounds(H0, ws[..t]), t, ws[t]) {
      RoundsSnoc(H0, ws, t);
    }
  }

  lemma AbcRounds60(ws: seq<Word>)
    requires |ws| == 80 && Words32(ws) && Words48(ws)
    requires Rounds(H0, ws[..40]) == Regs(0x32de1cba, 0x4c986405, 0xf718e5cf, 0x03d447f6, 0xf72eec32)
    ensures Rounds(H0, ws[..60]) == Regs(0x3f52de5a, 0x09d785fd, 0x3498bfd4, 0xf211824f, 0xd79915ab)
  {
    hide Rounds;
    forall t | 40 <= t < 60 ensures Rounds(H0, ws[..t + 1]) == Round(Rounds(H0, ws[..t]), t, ws[t]) {
      RoundsSnoc(H0, ws, t);
    }
  }

  lemma AbcRounds80(ws: seq<Word>)
    requires |ws| == 80 && Words48(ws) && Words64(ws)
    requires Rounds(H0, ws[..60]) == Regs(0x3f52de5a, 0x09d785fd, 0x3498bfd4, 0xf211824f, 0xd79915ab)
    ensures Rounds(H0, ws[..80]) == Regs(0x42541b35, 0x5738d5e1, 0x21834873, 0x681e6df6, 0xd8fdf6ad)
  {
    hide Rounds;
    forall t | 60 <= t < 80 ensures Rounds(H0, ws[..t + 1]) == Round(Rounds(H0, ws[..t]), t, ws[t]) {
      RoundsSnoc(H0, ws, t);
    }
  }

  /** SHA-1 of "abc" is a9993e36 4706816a ba3e2571 7850c26c 9cd0d89d. */
  lemma Abc()
    ensures Sha1(ABC) == Regs(0xa9993e36, 0x4706816a, 0xba3e2571, 0x7850c26c, 0x9cd0d89d)
  {
    hide Schedule, Rounds, Pad, Words0, Words16, Words32, Words48, Words64;
    PadLength(ABC);
    AbcBlock();
    var block := Pad(ABC);
    var ws := Schedule(block);
    AbcWords16(block);
    AbcWords32(block);
    AbcWords48(block);
    AbcWords64(block);
    AbcRounds20(ws);
    AbcRounds40(ws);
    AbcRounds60(ws);
    AbcRounds80(ws);
    assert ws[..80] == ws && [] + block == block;
    FoldSnoc(H0, [], block);
  }
}
