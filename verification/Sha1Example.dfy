/** The example of FIPS 180-2, appendix A.1: the digest of "abc", word by word and round by round. */
module Sha1Example {
  import opened Sha1

  const ABC: seq<byte> := [0x61, 0x62, 0x63]

  /** The message, padded to one block. */
  function Block(): (b: seq<byte>)
    ensures |b| == 64
  {
    ABC + [0x80] + Zeros(59) + [24]
  }

  lemma Padded()
    ensures Pad(ABC) == Block()
  {
    assert ZerosNeeded(3) == 52;
    assert LengthBytes(24) == Zeros(7) + [24];
    assert Zeros(52) + Zeros(7) == Zeros(59);
  }

  // ---------- The message schedule ----------

  ghost predicate WordAt(s: seq<word>, t: nat)
    requires t < |s|
  {
    s[t] == W(Block(), t)
  }

  /** The words of the message schedule. */
  ghost predicate Schedule(s: seq<word>) {
    |s| == 80 && forall t :: 0 <= t < 80 ==> WordAt(s, t)
  }

  lemma FirstWord(s: seq<word>, t: nat, b0: byte, b1: byte, b2: byte, b3: byte)
    requires Schedule(s) && t < 16 && Block()[4 * t..4 * t + 4] == [b0, b1, b2, b3]
    ensures s[t] == BigEndian(b0, b1, b2, b3)
  {
    assert WordAt(s, t);
    var b := Block()[4 * t..4 * t + 4];
    assert b[0] == Block()[4 * t] && b[1] == Block()[4 * t + 1];
    assert b[2] == Block()[4 * t + 2] && b[3] == Block()[4 * t + 3];
    hide Block, BigEndian;
  }

  lemma FirstWords(s: seq<word>)
    requires Schedule(s)
    ensures s[0] == 0x61626380 && s[15] == 0x18 && forall t :: 0 < t < 15 ==> s[t] == 0
  {
    hide Schedule;
    assert |s| == 80 by { EightyWords(s); }
    assert Block()[0..4] == [0x61, 0x62, 0x63, 0x80];
    assert Block()[60..64] == [0, 0, 0, 24];
    FirstWord(s, 0, 0x61, 0x62, 0x63, 0x80);
    FirstWord(s, 15, 0, 0, 0, 24);
    forall t | 0 < t < 15 ensures s[t] == 0 {
      assert Block()[4 * t..4 * t + 4] == [0, 0, 0, 0];
      FirstWord(s, t, 0, 0, 0, 0);
    }
  }

  lemma EightyWords(s: seq<word>)
    requires Schedule(s)
    ensures |s| == 80
  {
  }

  /** Word t from the four it is made of. */
  lemma NextWord(s: seq<word>, t: nat, a: word, b: word, c: word, d: word, w: word)
    requires Schedule(s) && 16 <= t < 80 && Rotl(Mix(a, b, c, d), 1) == w
    requires s[t - 3] == a && s[t - 8] == b && s[t - 14] == c && s[t - 16] == d
    ensures s[t] == w
  {
    hide Rotl, Mix, Block;
    assert WordAt(s, t) && WordAt(s, t - 3) && WordAt(s, t - 8) && WordAt(s, t - 14) && WordAt(s, t - 16);
  }

  lemma Words16(s: seq<word>)
    requires Schedule(s)
    ensures s[16] == 0xc2c4c700 && s[17] == 0x00000000 && s[18] == 0x00000030 && s[19] == 0x85898e01
    ensures s[20] == 0x00000000 && s[21] == 0x00000060 && s[22] == 0x0b131c03 && s[23] == 0x00000030
    ensures s[24] == 0x85898ec1 && s[25] == 0x16263806 && s[26] == 0x00000000 && s[27] == 0x00000180
    ensures s[28] == 0x2c4c700c && s[29] == 0x000000f0 && s[30] == 0x93afb507 && s[31] == 0x5898e048
  {
    hide Schedule;
    EightyWords(s);
    FirstWords(s);
    NextWord(s, 16, 0x00000000, 0x00000000, 0x00000000, 0x61626380, 0xc2c4c700);
    NextWord(s, 17, 0x00000000, 0x00000000, 0x00000000, 0x00000000, 0x00000000);
    NextWord(s, 18, 0x00000018, 0x00000000, 0x00000000, 0x00000000, 0x00000030);
    NextWord(s, 19, 0xc2c4c700, 0x00000000, 0x00000000, 0x00000000, 0x85898e01);
    NextWord(s, 20, 0x00000000, 0x00000000, 0x00000000, 0x00000000, 0x00000000);
    NextWord(s, 21, 0x00000030, 0x00000000, 0x00000000, 0x00000000, 0x00000060);
    NextWord(s, 22, 0x85898e01, 0x00000000, 0x00000000, 0x00000000, 0x0b131c03);
    NextWord(s, 23, 0x00000000, 0x00000018, 0x00000000, 0x00000000, 0x00000030);
    NextWord(s, 24, 0x00000060, 0xc2c4c700, 0x00000000, 0x00000000, 0x85898ec1);
    NextWord(s, 25, 0x0b131c03, 0x00000000, 0x00000000, 0x00000000, 0x16263806);
    NextWord(s, 26, 0x00000030, 0x00000030, 0x00000000, 0x00000000, 0x00000000);
    NextWord(s, 27, 0x85898ec1, 0x85898e01, 0x00000000, 0x00000000, 0x00000180);
    NextWord(s, 28, 0x16263806, 0x00000000, 0x00000000, 0x00000000, 0x2c4c700c);
    NextWord(s, 29, 0x00000000, 0x00000060, 0x00000018, 0x00000000, 0x000000f0);
    NextWord(s, 30, 0x00000180, 0x0b131c03, 0xc2c4c700, 0x00000000, 0x93afb507);
    NextWord(s, 31, 0x2c4c700c, 0x00000030, 0x00000000, 0x00000018, 0x5898e048);
  }

  lemma Words32(s: seq<word>)
    requires Schedule(s)
    ensures s[32] == 0x8e9a9202 && s[33] == 0x00000600 && s[34] == 0xb131c0f0 && s[35] == 0x16263bc6
    ensures s[36] == 0x4ebed41e && s[37] == 0x626380a1 && s[38] == 0x16263806 && s[39] == 0x000018c0
    ensures s[40] == 0xd2e138c4 && s[41] == 0x00000f00 && s[42] == 0x3afb5079 && s[43] == 0x898e04e5
    ensures s[44] == 0xe2ba3c2b && s[45] == 0x000060c0 && s[46] == 0x053a37cd && s[47] == 0x74458547
  {
    hide Schedule;
    EightyWords(s);
    Words16(s);
    NextWord(s, 32, 0x000000f0, 0x85898ec1, 0x00000030, 0xc2c4c700, 0x8e9a9202);
    NextWord(s, 33, 0x93afb507, 0x16263806, 0x85898e01, 0x00000000, 0x00000600);
    NextWord(s, 34, 0x5898e048, 0x00000000, 0x00000000, 0x00000030, 0xb131c0f0);
    NextWord(s, 35, 0x8e9a9202, 0x00000180, 0x00000060, 0x85898e01, 0x16263bc6);
    NextWord(s, 36, 0x00000600, 0x2c4c700c, 0x0b131c03, 0x00000000, 0x4ebed41e);
    NextWord(s, 37, 0xb131c0f0, 0x000000f0, 0x00000030, 0x00000060, 0x626380a1);
    NextWord(s, 38, 0x16263bc6, 0x93afb507, 0x85898ec1, 0x0b131c03, 0x16263806);
    NextWord(s, 39, 0x4ebed41e, 0x5898e048, 0x16263806, 0x00000030, 0x000018c0);
    NextWord(s, 40, 0x626380a1, 0x8e9a9202, 0x00000000, 0x85898ec1, 0xd2e138c4);
    NextWord(s, 41, 0x16263806, 0x00000600, 0x00000180, 0x16263806, 0x00000f00);
    NextWord(s, 42, 0x000018c0, 0xb131c0f0, 0x2c4c700c, 0x00000000, 0x3afb5079);
    NextWord(s, 43, 0xd2e138c4, 0x16263bc6, 0x000000f0, 0x00000180, 0x898e04e5);
    NextWord(s, 44, 0x00000f00, 0x4ebed41e, 0x93afb507, 0x2c4c700c, 0xe2ba3c2b);
    NextWord(s, 45, 0x3afb5079, 0x626380a1, 0x5898e048, 0x000000f0, 0x000060c0);
    NextWord(s, 46, 0x898e04e5, 0x16263806, 0x8e9a9202, 0x93afb507, 0x053a37cd);
    NextWord(s, 47, 0xe2ba3c2b, 0x000018c0, 0x00000600, 0x5898e048, 0x74458547);
  }

  lemma Words48(s: seq<word>)
    requires Schedule(s)
    ensures s[48] == 0xda9415ed && s[49] == 0x26380a16 && s[50] == 0x626383a1 && s[51] == 0x4ebf54de
    ensures s[52] == 0x3835b44b && s[53] == 0x0000f600 && s[54] == 0x1e84c7a3 && s[55] == 0x98e04d98
    ensures s[56] == 0x651d16a0 && s[57] == 0x62658ca1 && s[58] == 0x458544d6 && s[59] == 0x44584cb7
    ensures s[60] == 0x7ba06619 && s[61] == 0x6380aea2 && s[62] == 0x0ae55269 && s[63] == 0x627b49a1
  {
    hide Schedule;
    EightyWords(s);
    Words32(s);
    NextWord(s, 48, 0x000060c0, 0xd2e138c4, 0xb131c0f0, 0x8e9a9202, 0xda9415ed);
    NextWord(s, 49, 0x053a37cd, 0x00000f00, 0x16263bc6, 0x00000600, 0x26380a16);
    NextWord(s, 50, 0x74458547, 0x3afb5079, 0x4ebed41e, 0xb131c0f0, 0x626383a1);
    NextWord(s, 51, 0xda9415ed, 0x898e04e5, 0x626380a1, 0x16263bc6, 0x4ebf54de);
    NextWord(s, 52, 0x26380a16, 0xe2ba3c2b, 0x16263806, 0x4ebed41e, 0x3835b44b);
    NextWord(s, 53, 0x626383a1, 0x000060c0, 0x000018c0, 0x626380a1, 0x0000f600);
    NextWord(s, 54, 0x4ebf54de, 0x053a37cd, 0xd2e138c4, 0x16263806, 0x1e84c7a3);
    NextWord(s, 55, 0x3835b44b, 0x74458547, 0x00000f00, 0x000018c0, 0x98e04d98);
    NextWord(s, 56, 0x0000f600, 0xda9415ed, 0x3afb5079, 0xd2e138c4, 0x651d16a0);
    NextWord(s, 57, 0x1e84c7a3, 0x26380a16, 0x898e04e5, 0x00000f00, 0x62658ca1);
    NextWord(s, 58, 0x98e04d98, 0x626383a1, 0xe2ba3c2b, 0x3afb5079, 0x458544d6);
    NextWord(s, 59, 0x651d16a0, 0x4ebf54de, 0x000060c0, 0x898e04e5, 0x44584cb7);
    NextWord(s, 60, 0x62658ca1, 0x3835b44b, 0x053a37cd, 0xe2ba3c2b, 0x7ba06619);
    NextWord(s, 61, 0x458544d6, 0x0000f600, 0x74458547, 0x000060c0, 0x6380aea2);
    NextWord(s, 62, 0x44584cb7, 0x1e84c7a3, 0xda9415ed, 0x053a37cd, 0x0ae55269);
    NextWord(s, 63, 0x7ba06619, 0x98e04d98, 0x26380a16, 0x74458547, 0x627b49a1);
  }

  lemma Words64(s: seq<word>)
    requires Schedule(s)
    ensures s[64] == 0x7cd45c9d && s[65] == 0x000f0000 && s[66] == 0xfb50753a && s[67] == 0xec6765e8
    ensures s[68] == 0xba3c2be2 && s[69] == 0x0060c000 && s[70] == 0x3a37cd05 && s[71] == 0x458546f4
    ensures s[72] == 0xb8599dd6 && s[73] == 0x380a1a26 && s[74] == 0x01e02203 && s[75] == 0xe7cc3456
    ensures s[76] == 0xe6e60b69 && s[77] == 0x00f60a00 && s[78] == 0x5795ef4f && s[79] == 0x822e0879
  {
    hide Schedule;
    EightyWords(s);
    Words48(s);
    NextWord(s, 64, 0x6380aea2, 0x651d16a0, 0x626383a1, 0xda9415ed, 0x7cd45c9d);
    NextWord(s, 65, 0x0ae55269, 0x62658ca1, 0x4ebf54de, 0x26380a16, 0x000f0000);
    NextWord(s, 66, 0x627b49a1, 0x458544d6, 0x3835b44b, 0x626383a1, 0xfb50753a);
    NextWord(s, 67, 0x7cd45c9d, 0x44584cb7, 0x0000f600, 0x4ebf54de, 0xec6765e8);
    NextWord(s, 68, 0x000f0000, 0x7ba06619, 0x1e84c7a3, 0x3835b44b, 0xba3c2be2);
    NextWord(s, 69, 0xfb50753a, 0x6380aea2, 0x98e04d98, 0x0000f600, 0x0060c000);
    NextWord(s, 70, 0xec6765e8, 0x0ae55269, 0x651d16a0, 0x1e84c7a3, 0x3a37cd05);
    NextWord(s, 71, 0xba3c2be2, 0x627b49a1, 0x62658ca1, 0x98e04d98, 0x458546f4);
    NextWord(s, 72, 0x0060c000, 0x7cd45c9d, 0x458544d6, 0x651d16a0, 0xb8599dd6);
    NextWord(s, 73, 0x3a37cd05, 0x000f0000, 0x44584cb7, 0x62658ca1, 0x380a1a26);
    NextWord(s, 74, 0x458546f4, 0xfb50753a, 0x7ba06619, 0x458544d6, 0x01e02203);
    NextWord(s, 75, 0xb8599dd6, 0xec6765e8, 0x6380aea2, 0x44584cb7, 0xe7cc3456);
    NextWord(s, 76, 0x380a1a26, 0xba3c2be2, 0x0ae55269, 0x7ba06619, 0xe6e60b69);
    NextWord(s, 77, 0x01e02203, 0x0060c000, 0x627b49a1, 0x6380aea2, 0x00f60a00);
    NextWord(s, 78, 0xe7cc3456, 0x3a37cd05, 0x7cd45c9d, 0x0ae55269, 0x5795ef4f);
    NextWord(s, 79, 0xe6e60b69, 0x458546f4, 0x000f0000, 0x627b49a1, 0x822e0879);
  }

  // ---------- The rounds ----------

  ghost predicate StateAt(r: seq<Regs>, t: nat)
    requires t < |r| && t <= 80
  {
    r[t] == Rounds(Block(), INITIAL, t)
  }

  /** The working variables in front of every round and behind the last. */
  ghost predicate Trace(s: seq<word>, r: seq<Regs>) {
    Schedule(s) && |r| == 81 && forall t :: 0 <= t <= 80 ==> StateAt(r, t)
  }

  lemma StartState(s: seq<word>, r: seq<Regs>)
    requires Trace(s, r)
    ensures |s| == 80 && |r| == 81 && Schedule(s) && r[0] == INITIAL
  {
    assert StateAt(r, 0);
  }

  /** Round t on the working variables a to e. */
  lemma NextState(s: seq<word>, r: seq<Regs>, t: nat, a: word, b: word, c: word, d: word, e: word, w: word, next: word,
                  b30: word)
    requires Trace(s, r) && t < 80 && r[t] == Regs(a, b, c, d, e) && s[t] == w
    requires Round(Regs(a, b, c, d, e), t, w) == Regs(next, a, b30, c, d)
    ensures r[t + 1] == Regs(next, a, b30, c, d)
  {
    hide Round, Block, W;
    assert StateAt(r, t) && StateAt(r, t + 1) && WordAt(s, t);
  }

  lemma Rounds0(s: seq<word>, r: seq<Regs>)
    requires Trace(s, r)
    ensures r[8] == Regs(0x9e8c07d4, 0x993e30c1, 0x0ff1f290, 0xb3f52677, 0xf3763846)
  {
    hide Trace, Schedule;
    StartState(s, r);
    FirstWords(s);
    NextState(s, r, 0, 0x67452301, 0xefcdab89, 0x98badcfe, 0x10325476, 0xc3d2e1f0, 0x61626380,
              0x0116fc33, 0x7bf36ae2);
    NextState(s, r, 1, 0x0116fc33, 0x67452301, 0x7bf36ae2, 0x98badcfe, 0x10325476, 0x00000000,
              0x8990536d, 0x59d148c0);
    NextState(s, r, 2, 0x8990536d, 0x0116fc33, 0x59d148c0, 0x7bf36ae2, 0x98badcfe, 0x00000000,
              0xa1390f08, 0xc045bf0c);
    NextState(s, r, 3, 0xa1390f08, 0x8990536d, 0xc045bf0c, 0x59d148c0, 0x7bf36ae2, 0x00000000,
              0xcdd8e11b, 0x626414db);
    NextState(s, r, 4, 0xcdd8e11b, 0xa1390f08, 0x626414db, 0xc045bf0c, 0x59d148c0, 0x00000000,
              0xcfd499de, 0x284e43c2);
    NextState(s, r, 5, 0xcfd499de, 0xcdd8e11b, 0x284e43c2, 0x626414db, 0xc045bf0c, 0x00000000,
              0x3fc7ca40, 0xf3763846);
    NextState(s, r, 6, 0x3fc7ca40, 0xcfd499de, 0xf3763846, 0x284e43c2, 0x626414db, 0x00000000,
              0x993e30c1, 0xb3f52677);
    NextState(s, r, 7, 0x993e30c1, 0x3fc7ca40, 0xb3f52677, 0xf3763846, 0x284e43c2, 0x00000000,
              0x9e8c07d4, 0x0ff1f290);
  }

  lemma Rounds8(s: seq<word>, r: seq<Regs>)
    requires Trace(s, r)
    ensures r[16] == Regs(0x20bdd62f, 0x196bee77, 0x644a3da5, 0x1181ed99, 0x18c623f9)
  {
    hide Trace, Schedule;
    StartState(s, r);
    Rounds0(s, r);
    FirstWords(s);
    NextState(s, r, 8, 0x9e8c07d4, 0x993e30c1, 0x0ff1f290, 0xb3f52677, 0xf3763846, 0x00000000,
              0x4b6ae328, 0x664f8c30);
    NextState(s, r, 9, 0x4b6ae328, 0x9e8c07d4, 0x664f8c30, 0x0ff1f290, 0xb3f52677, 0x00000000,
              0x8351f929, 0x27a301f5);
    NextState(s, r, 10, 0x8351f929, 0x4b6ae328, 0x27a301f5, 0x664f8c30, 0x0ff1f290, 0x00000000,
              0xfbda9e89, 0x12dab8ca);
    NextState(s, r, 11, 0xfbda9e89, 0x8351f929, 0x12dab8ca, 0x27a301f5, 0x664f8c30, 0x00000000,
              0x63188fe4, 0x60d47e4a);
    NextState(s, r, 12, 0x63188fe4, 0xfbda9e89, 0x60d47e4a, 0x12dab8ca, 0x27a301f5, 0x00000000,
              0x4607b664, 0x7ef6a7a2);
    NextState(s, r, 13, 0x4607b664, 0x63188fe4, 0x7ef6a7a2, 0x60d47e4a, 0x12dab8ca, 0x00000000,
              0x9128f695, 0x18c623f9);
    NextState(s, r, 14, 0x9128f695, 0x4607b664, 0x18c623f9, 0x7ef6a7a2, 0x60d47e4a, 0x00000000,
              0x196bee77, 0x1181ed99);
    NextState(s, r, 15, 0x196bee77, 0x9128f695, 0x1181ed99, 0x18c623f9, 0x7ef6a7a2, 0x00000018,
              0x20bdd62f, 0x644a3da5);
  }

  lemma Rounds16(s: seq<word>, r: seq<Regs>)
    requires Trace(s, r)
    ensures r[24] == Regs(0xd541f12d, 0x21283486, 0x0ce88eff, 0x868dec32, 0x7f67875f)
  {
    hide Trace, Schedule;
    StartState(s, r);
    Rounds8(s, r);
    Words16(s);
    NextState(s, r, 16, 0x20bdd62f, 0x196bee77, 0x644a3da5, 0x1181ed99, 0x18c623f9, 0xc2c4c700,
              0x4e925823, 0xc65afb9d);
    NextState(s, r, 17, 0x4e925823, 0x20bdd62f, 0xc65afb9d, 0x644a3da5, 0x1181ed99, 0x00000000,
              0x82aa6728, 0xc82f758b);
    NextState(s, r, 18, 0x82aa6728, 0x4e925823, 0xc82f758b, 0xc65afb9d, 0x644a3da5, 0x00000030,
              0xdc64901d, 0xd3a49608);
    NextState(s, r, 19, 0xdc64901d, 0x82aa6728, 0xd3a49608, 0xc82f758b, 0xc65afb9d, 0x85898e01,
              0xfd9e1d7d, 0x20aa99ca);
    NextState(s, r, 20, 0xfd9e1d7d, 0xdc64901d, 0x20aa99ca, 0xd3a49608, 0xc82f758b, 0x00000000,
              0x1a37b0ca, 0x77192407);
    NextState(s, r, 21, 0x1a37b0ca, 0xfd9e1d7d, 0x77192407, 0x20aa99ca, 0xd3a49608, 0x00000060,
              0x33a23bfc, 0x7f67875f);
    NextState(s, r, 22, 0x33a23bfc, 0x1a37b0ca, 0x7f67875f, 0x77192407, 0x20aa99ca, 0x0b131c03,
              0x21283486, 0x868dec32);
    NextState(s, r, 23, 0x21283486, 0x33a23bfc, 0x868dec32, 0x7f67875f, 0x77192407, 0x00000030,
              0xd541f12d, 0x0ce88eff);
  }

  lemma Rounds24(s: seq<word>, r: seq<Regs>)
    requires Trace(s, r)
    ensures r[32] == Regs(0x3b845d33, 0x1267b407, 0x717eebd7, 0xa0dc2d4b, 0xd2aa1365)
  {
    hide Trace, Schedule;
    StartState(s, r);
    Rounds16(s, r);
    Words16(s);
    NextState(s, r, 24, 0xd541f12d, 0x21283486, 0x0ce88eff, 0x868dec32, 0x7f67875f, 0x85898ec1,
              0xc7567dc6, 0x884a0d21);
    NextState(s, r, 25, 0xc7567dc6, 0xd541f12d, 0x884a0d21, 0x0ce88eff, 0x868dec32, 0x16263806,
              0x48413ba4, 0x75507c4b);
    NextState(s, r, 26, 0x48413ba4, 0xc7567dc6, 0x75507c4b, 0x884a0d21, 0x0ce88eff, 0x00000000,
              0xbe35fbd5, 0xb1d59f71);
    NextState(s, r, 27, 0xbe35fbd5, 0x48413ba4, 0xb1d59f71, 0x75507c4b, 0x884a0d21, 0x00000180,
              0x4aa84d97, 0x12104ee9);
    NextState(s, r, 28, 0x4aa84d97, 0xbe35fbd5, 0x12104ee9, 0xb1d59f71, 0x75507c4b, 0x2c4c700c,
              0x8370b52e, 0x6f8d7ef5);
    NextState(s, r, 29, 0x8370b52e, 0x4aa84d97, 0x6f8d7ef5, 0x12104ee9, 0xb1d59f71, 0x000000f0,
              0xc5fbaf5d, 0xd2aa1365);
    NextState(s, r, 30, 0xc5fbaf5d, 0x8370b52e, 0xd2aa1365, 0x6f8d7ef5, 0x12104ee9, 0x93afb507,
              0x1267b407, 0xa0dc2d4b);
    NextState(s, r, 31, 0x1267b407, 0xc5fbaf5d, 0xa0dc2d4b, 0xd2aa1365, 0x6f8d7ef5, 0x5898e048,
              0x3b845d33, 0x717eebd7);
  }

  lemma Rounds32(s: seq<word>, r: seq<Regs>)
    requires Trace(s, r)
    ensures r[40] == Regs(0x32de1cba, 0x4c986405, 0xf718e5cf, 0x03d447f6, 0xf72eec32)
  {
    hide Trace, Schedule;
    StartState(s, r);
    Rounds24(s, r);
    Words32(s);
    NextState(s, r, 32, 0x3b845d33, 0x1267b407, 0x717eebd7, 0xa0dc2d4b, 0xd2aa1365, 0x8e9a9202,
              0x046faa0a, 0xc499ed01);
    NextState(s, r, 33, 0x046faa0a, 0x3b845d33, 0xc499ed01, 0x717eebd7, 0xa0dc2d4b, 0x00000600,
              0x2c0ebc11, 0xcee1174c);
    NextState(s, r, 34, 0x2c0ebc11, 0x046faa0a, 0xcee1174c, 0xc499ed01, 0x717eebd7, 0xb131c0f0,
              0x21796ad4, 0x811bea82);
    NextState(s, r, 35, 0x21796ad4, 0x2c0ebc11, 0x811bea82, 0xcee1174c, 0xc499ed01, 0x16263bc6,
              0xdcbbb0cb, 0x4b03af04);
    NextState(s, r, 36, 0xdcbbb0cb, 0x21796ad4, 0x4b03af04, 0x811bea82, 0xcee1174c, 0x4ebed41e,
              0x0f511fd8, 0x085e5ab5);
    NextState(s, r, 37, 0x0f511fd8, 0xdcbbb0cb, 0x085e5ab5, 0x4b03af04, 0x811bea82, 0x626380a1,
              0xdc63973f, 0xf72eec32);
    NextState(s, r, 38, 0xdc63973f, 0x0f511fd8, 0xf72eec32, 0x085e5ab5, 0x4b03af04, 0x16263806,
              0x4c986405, 0x03d447f6);
    NextState(s, r, 39, 0x4c986405, 0xdc63973f, 0x03d447f6, 0xf72eec32, 0x085e5ab5, 0x000018c0,
              0x32de1cba, 0xf718e5cf);
  }

  lemma Rounds40(s: seq<word>, r: seq<Regs>)
    requires Trace(s, r)
    ensures r[48] == Regs(0xbead02ca, 0xa01b846c, 0x8714787c, 0x503ca382, 0xfb86c6ab)
  {
    hide Trace, Schedule;
    StartState(s, r);
    Rounds32(s, r);
    Words32(s);
    NextState(s, r, 40, 0x32de1cba, 0x4c986405, 0xf718e5cf, 0x03d447f6, 0xf72eec32, 0xd2e138c4,
              0xfc87dedf, 0x53261901);
    NextState(s, r, 41, 0xfc87dedf, 0x32de1cba, 0x53261901, 0xf718e5cf, 0x03d447f6, 0x00000f00,
              0x970a0d5c, 0x8cb7872e);
    NextState(s, r, 42, 0x970a0d5c, 0xfc87dedf, 0x8cb7872e, 0x53261901, 0xf718e5cf, 0x3afb5079,
              0x7f193dc5, 0xff21f7b7);
    NextState(s, r, 43, 0x7f193dc5, 0x970a0d5c, 0xff21f7b7, 0x8cb7872e, 0x53261901, 0x898e04e5,
              0xee1b1aaf, 0x25c28357);
    NextState(s, r, 44, 0xee1b1aaf, 0x7f193dc5, 0x25c28357, 0xff21f7b7, 0x8cb7872e, 0xe2ba3c2b,
              0x40f28e09, 0x5fc64f71);
    NextState(s, r, 45, 0x40f28e09, 0xee1b1aaf, 0x5fc64f71, 0x25c28357, 0xff21f7b7, 0x000060c0,
              0x1c51e1f2, 0xfb86c6ab);
    NextState(s, r, 46, 0x1c51e1f2, 0x40f28e09, 0xfb86c6ab, 0x5fc64f71, 0x25c28357, 0x053a37cd,
              0xa01b846c, 0x503ca382);
    NextState(s, r, 47, 0xa01b846c, 0x1c51e1f2, 0x503ca382, 0xfb86c6ab, 0x5fc64f71, 0x74458547,
              0xbead02ca, 0x8714787c);
  }

  lemma Rounds48(s: seq<word>, r: seq<Regs>)
    requires Trace(s, r)
    ensures r[56] == Regs(0x5e6456af, 0x7b71f76d, 0x09fa7c76, 0x792410db, 0x8e11eb59)
  {
    hide Trace, Schedule;
    StartState(s, r);
    Rounds40(s, r);
    Words48(s);
    NextState(s, r, 48, 0xbead02ca, 0xa01b846c, 0x8714787c, 0x503ca382, 0xfb86c6ab, 0xda9415ed,
              0xbaf39337, 0x2806e11b);
    NextState(s, r, 49, 0xbaf39337, 0xbead02ca, 0x2806e11b, 0x8714787c, 0x503ca382, 0x26380a16,
              0x120731c5, 0xafab40b2);
    NextState(s, r, 50, 0x120731c5, 0xbaf39337, 0xafab40b2, 0x2806e11b, 0x8714787c, 0x626383a1,
              0x641db2ce, 0xeebce4cd);
    NextState(s, r, 51, 0x641db2ce, 0x120731c5, 0xeebce4cd, 0xafab40b2, 0x2806e11b, 0x4ebf54de,
              0x3847ad66, 0x4481cc71);
    NextState(s, r, 52, 0x3847ad66, 0x641db2ce, 0x4481cc71, 0xeebce4cd, 0xafab40b2, 0x3835b44b,
              0xe490436d, 0x99076cb3);
    NextState(s, r, 53, 0xe490436d, 0x3847ad66, 0x99076cb3, 0x4481cc71, 0xeebce4cd, 0x0000f600,
              0x27e9f1d8, 0x8e11eb59);
    NextState(s, r, 54, 0x27e9f1d8, 0xe490436d, 0x8e11eb59, 0x99076cb3, 0x4481cc71, 0x1e84c7a3,
              0x7b71f76d, 0x792410db);
    NextState(s, r, 55, 0x7b71f76d, 0x27e9f1d8, 0x792410db, 0x8e11eb59, 0x99076cb3, 0x98e04d98,
              0x5e6456af, 0x09fa7c76);
  }

  lemma Rounds56(s: seq<word>, r: seq<Regs>)
    requires Trace(s, r)
    ensures r[64] == Regs(0x6b61c9e1, 0xb66c020b, 0x9523272c, 0xf5d5b051, 0x8fd4b796)
  {
    hide Trace, Schedule;
    StartState(s, r);
    Rounds48(s, r);
    Words48(s);
    NextState(s, r, 56, 0x5e6456af, 0x7b71f76d, 0x09fa7c76, 0x792410db, 0x8e11eb59, 0x651d16a0,
              0xc846093f, 0x5edc7ddb);
    NextState(s, r, 57, 0xc846093f, 0x5e6456af, 0x5edc7ddb, 0x09fa7c76, 0x792410db, 0x62658ca1,
              0xd262ff50, 0xd79915ab);
    NextState(s, r, 58, 0xd262ff50, 0xc846093f, 0xd79915ab, 0x5edc7ddb, 0x09fa7c76, 0x458544d6,
              0x09d785fd, 0xf211824f);
    NextState(s, r, 59, 0x09d785fd, 0xd262ff50, 0xf211824f, 0xd79915ab, 0x5edc7ddb, 0x44584cb7,
              0x3f52de5a, 0x3498bfd4);
    NextState(s, r, 60, 0x3f52de5a, 0x09d785fd, 0x3498bfd4, 0xf211824f, 0xd79915ab, 0x7ba06619,
              0xd756c147, 0x4275e17f);
    NextState(s, r, 61, 0xd756c147, 0x3f52de5a, 0x4275e17f, 0x3498bfd4, 0xf211824f, 0x6380aea2,
              0x548c9cb2, 0x8fd4b796);
    NextState(s, r, 62, 0x548c9cb2, 0xd756c147, 0x8fd4b796, 0x4275e17f, 0x3498bfd4, 0x0ae55269,
              0xb66c020b, 0xf5d5b051);
    NextState(s, r, 63, 0xb66c020b, 0x548c9cb2, 0xf5d5b051, 0x8fd4b796, 0x4275e17f, 0x627b49a1,
              0x6b61c9e1, 0x9523272c);
  }

  lemma Rounds64(s: seq<word>, r: seq<Regs>)
    requires Trace(s, r)
    ensures r[72] == Regs(0x39859de7, 0xc199f8c7, 0x8fc96230, 0x125c24f0, 0xde37534a)
  {
    hide Trace, Schedule;
    StartState(s, r);
    Rounds56(s, r);
    Words64(s);
    NextState(s, r, 64, 0x6b61c9e1, 0xb66c020b, 0x9523272c, 0xf5d5b051, 0x8fd4b796, 0x7cd45c9d,
              0x19dfa7ac, 0xed9b0082);
    NextState(s, r, 65, 0x19dfa7ac, 0x6b61c9e1, 0xed9b0082, 0x9523272c, 0xf5d5b051, 0x000f0000,
              0x101655f9, 0x5ad87278);
    NextState(s, r, 66, 0x101655f9, 0x19dfa7ac, 0x5ad87278, 0xed9b0082, 0x9523272c, 0xfb50753a,
              0x0c3df2b4, 0x0677e9eb);
    NextState(s, r, 67, 0x0c3df2b4, 0x101655f9, 0x0677e9eb, 0x5ad87278, 0xed9b0082, 0xec6765e8,
              0x78dd4d2b, 0x4405957e);
    NextState(s, r, 68, 0x78dd4d2b, 0x0c3df2b4, 0x4405957e, 0x0677e9eb, 0x5ad87278, 0xba3c2be2,
              0x497093c0, 0x030f7cad);
    NextState(s, r, 69, 0x497093c0, 0x78dd4d2b, 0x030f7cad, 0x4405957e, 0x0677e9eb, 0x0060c000,
              0x3f2588c2, 0xde37534a);
    NextState(s, r, 70, 0x3f2588c2, 0x497093c0, 0xde37534a, 0x030f7cad, 0x4405957e, 0x3a37cd05,
              0xc199f8c7, 0x125c24f0);
    NextState(s, r, 71, 0xc199f8c7, 0x3f2588c2, 0x125c24f0, 0xde37534a, 0x030f7cad, 0x458546f4,
              0x39859de7, 0x8fc96230);
  }

  lemma Rounds72(s: seq<word>, r: seq<Regs>)
    requires Trace(s, r)
    ensures r[80] == Regs(0x42541b35, 0x5738d5e1, 0x21834873, 0x681e6df6, 0xd8fdf6ad)
  {
    hide Trace, Schedule;
    StartState(s, r);
    Rounds64(s, r);
    Words64(s);
    NextState(s, r, 72, 0x39859de7, 0xc199f8c7, 0x8fc96230, 0x125c24f0, 0xde37534a, 0xb8599dd6,
              0xedb42de4, 0xf0667e31);
    NextState(s, r, 73, 0xedb42de4, 0x39859de7, 0xf0667e31, 0x8fc96230, 0x125c24f0, 0x380a1a26,
              0x11793f6f, 0xce616779);
    NextState(s, r, 74, 0x11793f6f, 0xedb42de4, 0xce616779, 0xf0667e31, 0x8fc96230, 0x01e02203,
              0x5ee76897, 0x3b6d0b79);
    NextState(s, r, 75, 0x5ee76897, 0x11793f6f, 0x3b6d0b79, 0xce616779, 0xf0667e31, 0xe7cc3456,
              0x63f7dab7, 0xc45e4fdb);
    NextState(s, r, 76, 0x63f7dab7, 0x5ee76897, 0xc45e4fdb, 0x3b6d0b79, 0xce616779, 0xe6e60b69,
              0xa079b7d9, 0xd7b9da25);
    NextState(s, r, 77, 0xa079b7d9, 0x63f7dab7, 0xd7b9da25, 0xc45e4fdb, 0x3b6d0b79, 0x00f60a00,
              0x860d21cc, 0xd8fdf6ad);
    NextState(s, r, 78, 0x860d21cc, 0xa079b7d9, 0xd8fdf6ad, 0xd7b9da25, 0xc45e4fdb, 0x5795ef4f,
              0x5738d5e1, 0x681e6df6);
    NextState(s, r, 79, 0x5738d5e1, 0x860d21cc, 0x681e6df6, 0xd8fdf6ad, 0xd7b9da25, 0x822e0879,
              0x42541b35, 0x21834873);
  }

  // ---------- The digest ----------

  lemma DigestWords()
    ensures Compress(INITIAL, Block()) == Regs(0xa9993e36, 0x4706816a, 0xba3e2571, 0x7850c26c, 0x9cd0d89d)
  {
    hide W, Rounds, Schedule, Trace;
    var s, r := ExampleTrace();
    Rounds72(s, r);
    LastState(s, r);
  }

  /** The example's schedule and its working variables. */
  lemma ExampleTrace() returns (s: seq<word>, r: seq<Regs>)
    ensures Trace(s, r)
  {
    hide W, Rounds, Block;
    s := seq(80, t requires 0 <= t < 80 => W(Block(), t));
    r := seq(81, t requires 0 <= t <= 80 => Rounds(Block(), INITIAL, t));
    assert forall t :: 0 <= t < 80 ==> WordAt(s, t);
    assert forall t :: 0 <= t <= 80 ==> StateAt(r, t);
  }

  lemma LastState(s: seq<word>, r: seq<Regs>)
    requires Trace(s, r)
    ensures |r| == 81 && r[80] == Rounds(Block(), INITIAL, 80)
  {
    assert StateAt(r, 80);
  }

  lemma DigestBytes()
    ensures WordBytes(0xa9993e36) == [0xa9, 0x99, 0x3e, 0x36]
    ensures WordBytes(0x4706816a) == [0x47, 0x06, 0x81, 0x6a]
    ensures WordBytes(0xba3e2571) == [0xba, 0x3e, 0x25, 0x71]
    ensures WordBytes(0x7850c26c) == [0x78, 0x50, 0xc2, 0x6c]
    ensures WordBytes(0x9cd0d89d) == [0x9c, 0xd0, 0xd8, 0x9d]
  {
  }

  lemma DigestOfAbc()
    ensures Digest(ABC) == [0xa9, 0x99, 0x3e, 0x36] +
                           [0x47, 0x06, 0x81, 0x6a] +
                           [0xba, 0x3e, 0x25, 0x71] +
                           [0x78, 0x50, 0xc2, 0x6c] +
                           [0x9c, 0xd0, 0xd8, 0x9d]
  {
    hide Compress, Pad, WordBytes;
    Padded();
    DigestWords();
    DigestBytes();
    assert Block()[..0] == [] && Block()[0..] == Block();
    assert HashBlocks(Block()) == Compress(HashBlocks([]), Block());
  }
}
