/**
  The digest of "abc" by FIPS 180-1, Appendix A, through its intermediate words, and where the constants of section 6 come
  from.
*/
module Sha1Example {
  import opened Bytes
  import opened HashFold
  import opened HashExample
  import opened Sha1

  /** `k` is the square root of `n`, rounded down, with thirty binary places. */
  ghost predicate IsRoot(k: nat, n: nat) {
    k * k <= n * 0x1000_0000_0000_0000 < (k + 1) * (k + 1)
  }

  /** The constants are the square roots of 2, 3, 5 and 10. */
  lemma ConstantsAreRoots(t: nat)
    ensures IsRoot(K(t) as int, if t < 20 then 2 else if t < 40 then 3 else if t < 60 then 5 else 10)
  {
    var n: nat := if t < 20 then 0x5a827999 else if t < 40 then 0x6ed9eba1 else if t < 60 then 0x8f1bbcdc else 0xca62c1d6;
    assert K(t) as int == n;
    assert IsRoot(0x5a827999, 2) && IsRoot(0x6ed9eba1, 3) && IsRoot(0x8f1bbcdc, 5) && IsRoot(0xca62c1d6, 10);
  }

  function Block(): (b: seq<byte>)
    ensures |b| == BLOCK
  {
    BlockBytes();
    Padded(ABC)
  }

  lemma NextWord(t: nat)
    requires t >= 16
    ensures W(Block(), t) == Rol(Xor4(W(Block(), t - 3), W(Block(), t - 8), W(Block(), t - 14), W(Block(), t - 16)), 1)
  {
    hide Xor4, Rol, Block;
  }

  lemma Words0()
    ensures W(Block(), 0) == 0x61626380 && W(Block(), 15) == 0x18
    ensures forall t {:trigger W(Block(), t)} :: 1 <= t < 15 ==> W(Block(), t) == 0
  {
    hide Padded;
    forall t {:trigger W(Block(), t)} | 0 <= t < 16
      ensures W(Block(), t) == if t == 0 then 0x61626380 else if t == 15 then 0x18 else 0
    {
      BlockWords(t);
    }
  }

  lemma Mixed16()
    ensures Rol(Xor4(0x00000000, 0x00000000, 0x00000000, 0x61626380), 1) == 0xc2c4c700
    ensures Rol(Xor4(0x00000000, 0x00000000, 0x00000000, 0x00000000), 1) == 0x00000000
    ensures Rol(Xor4(0x00000018, 0x00000000, 0x00000000, 0x00000000), 1) == 0x00000030
    ensures Rol(Xor4(0xc2c4c700, 0x00000000, 0x00000000, 0x00000000), 1) == 0x85898e01
    ensures Rol(Xor4(0x00000000, 0x00000000, 0x00000000, 0x00000000), 1) == 0x00000000
    ensures Rol(Xor4(0x00000030, 0x00000000, 0x00000000, 0x00000000), 1) == 0x00000060
    ensures Rol(Xor4(0x85898e01, 0x00000000, 0x00000000, 0x00000000), 1) == 0x0b131c03
    ensures Rol(Xor4(0x00000000, 0x00000018, 0x00000000, 0x00000000), 1) == 0x00000030
  {
  }

  lemma Words16()
    ensures W(Block(), 16) == 0xc2c4c700
    ensures W(Block(), 17) == 0x00000000
    ensures W(Block(), 18) == 0x00000030
    ensures W(Block(), 19) == 0x85898e01
    ensures W(Block(), 20) == 0x00000000
    ensures W(Block(), 21) == 0x00000060
    ensures W(Block(), 22) == 0x0b131c03
    ensures W(Block(), 23) == 0x00000030
  {
    hide W, Xor4, Rol, Block;
    Words0();
    Mixed16();
    NextWord(16);
    NextWord(17);
    NextWord(18);
    NextWord(19);
    NextWord(20);
    NextWord(21);
    NextWord(22);
    NextWord(23);
  }

  lemma Mixed24()
    ensures Rol(Xor4(0x00000060, 0xc2c4c700, 0x00000000, 0x00000000), 1) == 0x85898ec1
    ensures Rol(Xor4(0x0b131c03, 0x00000000, 0x00000000, 0x00000000), 1) == 0x16263806
    ensures Rol(Xor4(0x00000030, 0x00000030, 0x00000000, 0x00000000), 1) == 0x00000000
    ensures Rol(Xor4(0x85898ec1, 0x85898e01, 0x00000000, 0x00000000), 1) == 0x00000180
    ensures Rol(Xor4(0x16263806, 0x00000000, 0x00000000, 0x00000000), 1) == 0x2c4c700c
    ensures Rol(Xor4(0x00000000, 0x00000060, 0x00000018, 0x00000000), 1) == 0x000000f0
    ensures Rol(Xor4(0x00000180, 0x0b131c03, 0xc2c4c700, 0x00000000), 1) == 0x93afb507
    ensures Rol(Xor4(0x2c4c700c, 0x00000030, 0x00000000, 0x00000018), 1) == 0x5898e048
  {
  }

  lemma Words24()
    ensures W(Block(), 24) == 0x85898ec1
    ensures W(Block(), 25) == 0x16263806
    ensures W(Block(), 26) == 0x00000000
    ensures W(Block(), 27) == 0x00000180
    ensures W(Block(), 28) == 0x2c4c700c
    ensures W(Block(), 29) == 0x000000f0
    ensures W(Block(), 30) == 0x93afb507
    ensures W(Block(), 31) == 0x5898e048
  {
    hide W, Xor4, Rol, Block;
    Words0();
    Words16();
    Mixed24();
    NextWord(24);
    NextWord(25);
    NextWord(26);
    NextWord(27);
    NextWord(28);
    NextWord(29);
    NextWord(30);
    NextWord(31);
  }

  lemma Mixed32()
    ensures Rol(Xor4(0x000000f0, 0x85898ec1, 0x00000030, 0xc2c4c700), 1) == 0x8e9a9202
    ensures Rol(Xor4(0x93afb507, 0x16263806, 0x85898e01, 0x00000000), 1) == 0x00000600
    ensures Rol(Xor4(0x5898e048, 0x00000000, 0x00000000, 0x00000030), 1) == 0xb131c0f0
    ensures Rol(Xor4(0x8e9a9202, 0x00000180, 0x00000060, 0x85898e01), 1) == 0x16263bc6
    ensures Rol(Xor4(0x00000600, 0x2c4c700c, 0x0b131c03, 0x00000000), 1) == 0x4ebed41e
    ensures Rol(Xor4(0xb131c0f0, 0x000000f0, 0x00000030, 0x00000060), 1) == 0x626380a1
    ensures Rol(Xor4(0x16263bc6, 0x93afb507, 0x85898ec1, 0x0b131c03), 1) == 0x16263806
    ensures Rol(Xor4(0x4ebed41e, 0x5898e048, 0x16263806, 0x00000030), 1) == 0x000018c0
  {
  }

  lemma Words32()
    ensures W(Block(), 32) == 0x8e9a9202
    ensures W(Block(), 33) == 0x00000600
    ensures W(Block(), 34) == 0xb131c0f0
    ensures W(Block(), 35) == 0x16263bc6
    ensures W(Block(), 36) == 0x4ebed41e
    ensures W(Block(), 37) == 0x626380a1
    ensures W(Block(), 38) == 0x16263806
    ensures W(Block(), 39) == 0x000018c0
  {
    hide W, Xor4, Rol, Block;
    Words16();
    Words24();
    Mixed32();
    NextWord(32);
    NextWord(33);
    NextWord(34);
    NextWord(35);
    NextWord(36);
    NextWord(37);
    NextWord(38);
    NextWord(39);
  }

  lemma Mixed40()
    ensures Rol(Xor4(0x626380a1, 0x8e9a9202, 0x00000000, 0x85898ec1), 1) == 0xd2e138c4
    ensures Rol(Xor4(0x16263806, 0x00000600, 0x00000180, 0x16263806), 1) == 0x00000f00
    ensures Rol(Xor4(0x000018c0, 0xb131c0f0, 0x2c4c700c, 0x00000000), 1) == 0x3afb5079
    ensures Rol(Xor4(0xd2e138c4, 0x16263bc6, 0x000000f0, 0x00000180), 1) == 0x898e04e5
    ensures Rol(Xor4(0x00000f00, 0x4ebed41e, 0x93afb507, 0x2c4c700c), 1) == 0xe2ba3c2b
    ensures Rol(Xor4(0x3afb5079, 0x626380a1, 0x5898e048, 0x000000f0), 1) == 0x000060c0
    ensures Rol(Xor4(0x898e04e5, 0x16263806, 0x8e9a9202, 0x93afb507), 1) == 0x053a37cd
    ensures Rol(Xor4(0xe2ba3c2b, 0x000018c0, 0x00000600, 0x5898e048), 1) == 0x74458547
  {
  }

  lemma Words40()
    ensures W(Block(), 40) == 0xd2e138c4
    ensures W(Block(), 41) == 0x00000f00
    ensures W(Block(), 42) == 0x3afb5079
    ensures W(Block(), 43) == 0x898e04e5
    ensures W(Block(), 44) == 0xe2ba3c2b
    ensures W(Block(), 45) == 0x000060c0
    ensures W(Block(), 46) == 0x053a37cd
    ensures W(Block(), 47) == 0x74458547
  {
    hide W, Xor4, Rol, Block;
    Words24();
    Words32();
    Mixed40();
    NextWord(40);
    NextWord(41);
    NextWord(42);
    NextWord(43);
    NextWord(44);
    NextWord(45);
    NextWord(46);
    NextWord(47);
  }

  lemma Mixed48()
    ensures Rol(Xor4(0x000060c0, 0xd2e138c4, 0xb131c0f0, 0x8e9a9202), 1) == 0xda9415ed
    ensures Rol(Xor4(0x053a37cd, 0x00000f00, 0x16263bc6, 0x00000600), 1) == 0x26380a16
    ensures Rol(Xor4(0x74458547, 0x3afb5079, 0x4ebed41e, 0xb131c0f0), 1) == 0x626383a1
    ensures Rol(Xor4(0xda9415ed, 0x898e04e5, 0x626380a1, 0x16263bc6), 1) == 0x4ebf54de
    ensures Rol(Xor4(0x26380a16, 0xe2ba3c2b, 0x16263806, 0x4ebed41e), 1) == 0x3835b44b
    ensures Rol(Xor4(0x626383a1, 0x000060c0, 0x000018c0, 0x626380a1), 1) == 0x0000f600
    ensures Rol(Xor4(0x4ebf54de, 0x053a37cd, 0xd2e138c4, 0x16263806), 1) == 0x1e84c7a3
    ensures Rol(Xor4(0x3835b44b, 0x74458547, 0x00000f00, 0x000018c0), 1) == 0x98e04d98
  {
  }

  lemma Words48()
    ensures W(Block(), 48) == 0xda9415ed
    ensures W(Block(), 49) == 0x26380a16
    ensures W(Block(), 50) == 0x626383a1
    ensures W(Block(), 51) == 0x4ebf54de
    ensures W(Block(), 52) == 0x3835b44b
    ensures W(Block(), 53) == 0x0000f600
    ensures W(Block(), 54) == 0x1e84c7a3
    ensures W(Block(), 55) == 0x98e04d98
  {
    hide W, Xor4, Rol, Block;
    Words32();
    Words40();
    Mixed48();
    NextWord(48);
    NextWord(49);
    NextWord(50);
    NextWord(51);
    NextWord(52);
    NextWord(53);
    NextWord(54);
    NextWord(55);
  }

  lemma Mixed56()
    ensures Rol(Xor4(0x0000f600, 0xda9415ed, 0x3afb5079, 0xd2e138c4), 1) == 0x651d16a0
    ensures Rol(Xor4(0x1e84c7a3, 0x26380a16, 0x898e04e5, 0x00000f00), 1) == 0x62658ca1
    ensures Rol(Xor4(0x98e04d98, 0x626383a1, 0xe2ba3c2b, 0x3afb5079), 1) == 0x458544d6
    ensures Rol(Xor4(0x651d16a0, 0x4ebf54de, 0x000060c0, 0x898e04e5), 1) == 0x44584cb7
    ensures Rol(Xor4(0x62658ca1, 0x3835b44b, 0x053a37cd, 0xe2ba3c2b), 1) == 0x7ba06619
    ensures Rol(Xor4(0x458544d6, 0x0000f600, 0x74458547, 0x000060c0), 1) == 0x6380aea2
    ensures Rol(Xor4(0x44584cb7, 0x1e84c7a3, 0xda9415ed, 0x053a37cd), 1) == 0x0ae55269
    ensures Rol(Xor4(0x7ba06619, 0x98e04d98, 0x26380a16, 0x74458547), 1) == 0x627b49a1
  {
  }

  lemma Words56()
    ensures W(Block(), 56) == 0x651d16a0
    ensures W(Block(), 57) == 0x62658ca1
    ensures W(Block(), 58) == 0x458544d6
    ensures W(Block(), 59) == 0x44584cb7
    ensures W(Block(), 60) == 0x7ba06619
    ensures W(Block(), 61) == 0x6380aea2
    ensures W(Block(), 62) == 0x0ae55269
    ensures W(Block(), 63) == 0x627b49a1
  {
    hide W, Xor4, Rol, Block;
    Words40();
    Words48();
    Mixed56();
    NextWord(56);
    NextWord(57);
    NextWord(58);
    NextWord(59);
    NextWord(60);
    NextWord(61);
    NextWord(62);
    NextWord(63);
  }

  lemma Mixed64()
    ensures Rol(Xor4(0x6380aea2, 0x651d16a0, 0x626383a1, 0xda9415ed), 1) == 0x7cd45c9d
    ensures Rol(Xor4(0x0ae55269, 0x62658ca1, 0x4ebf54de, 0x26380a16), 1) == 0x000f0000
    ensures Rol(Xor4(0x627b49a1, 0x458544d6, 0x3835b44b, 0x626383a1), 1) == 0xfb50753a
    ensures Rol(Xor4(0x7cd45c9d, 0x44584cb7, 0x0000f600, 0x4ebf54de), 1) == 0xec6765e8
    ensures Rol(Xor4(0x000f0000, 0x7ba06619, 0x1e84c7a3, 0x3835b44b), 1) == 0xba3c2be2
    ensures Rol(Xor4(0xfb50753a, 0x6380aea2, 0x98e04d98, 0x0000f600), 1) == 0x0060c000
    ensures Rol(Xor4(0xec6765e8, 0x0ae55269, 0x651d16a0, 0x1e84c7a3), 1) == 0x3a37cd05
    ensures Rol(Xor4(0xba3c2be2, 0x627b49a1, 0x62658ca1, 0x98e04d98), 1) == 0x458546f4
  {
  }

  lemma Words64()
    ensures W(Block(), 64) == 0x7cd45c9d
    ensures W(Block(), 65) == 0x000f0000
    ensures W(Block(), 66) == 0xfb50753a
    ensures W(Block(), 67) == 0xec6765e8
    ensures W(Block(), 68) == 0xba3c2be2
    ensures W(Block(), 69) == 0x0060c000
    ensures W(Block(), 70) == 0x3a37cd05
    ensures W(Block(), 71) == 0x458546f4
  {
    hide W, Xor4, Rol, Block;
    Words48();
    Words56();
    Mixed64();
    NextWord(64);
    NextWord(65);
    NextWord(66);
    NextWord(67);
    NextWord(68);
    NextWord(69);
    NextWord(70);
    NextWord(71);
  }

  lemma Mixed72()
    ensures Rol(Xor4(0x0060c000, 0x7cd45c9d, 0x458544d6, 0x651d16a0), 1) == 0xb8599dd6
    ensures Rol(Xor4(0x3a37cd05, 0x000f0000, 0x44584cb7, 0x62658ca1), 1) == 0x380a1a26
    ensures Rol(Xor4(0x458546f4, 0xfb50753a, 0x7ba06619, 0x458544d6), 1) == 0x01e02203
    ensures Rol(Xor4(0xb8599dd6, 0xec6765e8, 0x6380aea2, 0x44584cb7), 1) == 0xe7cc3456
    ensures Rol(Xor4(0x380a1a26, 0xba3c2be2, 0x0ae55269, 0x7ba06619), 1) == 0xe6e60b69
    ensures Rol(Xor4(0x01e02203, 0x0060c000, 0x627b49a1, 0x6380aea2), 1) == 0x00f60a00
    ensures Rol(Xor4(0xe7cc3456, 0x3a37cd05, 0x7cd45c9d, 0x0ae55269), 1) == 0x5795ef4f
    ensures Rol(Xor4(0xe6e60b69, 0x458546f4, 0x000f0000, 0x627b49a1), 1) == 0x822e0879
  {
  }

  lemma Words72()
    ensures W(Block(), 72) == 0xb8599dd6
    ensures W(Block(), 73) == 0x380a1a26
    ensures W(Block(), 74) == 0x01e02203
    ensures W(Block(), 75) == 0xe7cc3456
    ensures W(Block(), 76) == 0xe6e60b69
    ensures W(Block(), 77) == 0x00f60a00
    ensures W(Block(), 78) == 0x5795ef4f
    ensures W(Block(), 79) == 0x822e0879
  {
    hide W, Xor4, Rol, Block;
    Words56();
    Words64();
    Mixed72();
    NextWord(72);
    NextWord(73);
    NextWord(74);
    NextWord(75);
    NextWord(76);
    NextWord(77);
    NextWord(78);
    NextWord(79);
  }

  lemma Line0()
    ensures Step(Regs(0x67452301, 0xefcdab89, 0x98badcfe, 0x10325476, 0xc3d2e1f0), 0, 0x61626380)
         == Regs(0x0116fc33, 0x67452301, 0x7bf36ae2, 0x98badcfe, 0x10325476)
    ensures Step(Regs(0x0116fc33, 0x67452301, 0x7bf36ae2, 0x98badcfe, 0x10325476), 1, 0x00000000)
         == Regs(0x8990536d, 0x0116fc33, 0x59d148c0, 0x7bf36ae2, 0x98badcfe)
    ensures Step(Regs(0x8990536d, 0x0116fc33, 0x59d148c0, 0x7bf36ae2, 0x98badcfe), 2, 0x00000000)
         == Regs(0xa1390f08, 0x8990536d, 0xc045bf0c, 0x59d148c0, 0x7bf36ae2)
    ensures Step(Regs(0xa1390f08, 0x8990536d, 0xc045bf0c, 0x59d148c0, 0x7bf36ae2), 3, 0x00000000)
         == Regs(0xcdd8e11b, 0xa1390f08, 0x626414db, 0xc045bf0c, 0x59d148c0)
    ensures Step(Regs(0xcdd8e11b, 0xa1390f08, 0x626414db, 0xc045bf0c, 0x59d148c0), 4, 0x00000000)
         == Regs(0xcfd499de, 0xcdd8e11b, 0x284e43c2, 0x626414db, 0xc045bf0c)
    ensures Step(Regs(0xcfd499de, 0xcdd8e11b, 0x284e43c2, 0x626414db, 0xc045bf0c), 5, 0x00000000)
         == Regs(0x3fc7ca40, 0xcfd499de, 0xf3763846, 0x284e43c2, 0x626414db)
    ensures Step(Regs(0x3fc7ca40, 0xcfd499de, 0xf3763846, 0x284e43c2, 0x626414db), 6, 0x00000000)
         == Regs(0x993e30c1, 0x3fc7ca40, 0xb3f52677, 0xf3763846, 0x284e43c2)
    ensures Step(Regs(0x993e30c1, 0x3fc7ca40, 0xb3f52677, 0xf3763846, 0x284e43c2), 7, 0x00000000)
         == Regs(0x9e8c07d4, 0x993e30c1, 0x0ff1f290, 0xb3f52677, 0xf3763846)
    ensures Step(Regs(0x9e8c07d4, 0x993e30c1, 0x0ff1f290, 0xb3f52677, 0xf3763846), 8, 0x00000000)
         == Regs(0x4b6ae328, 0x9e8c07d4, 0x664f8c30, 0x0ff1f290, 0xb3f52677)
    ensures Step(Regs(0x4b6ae328, 0x9e8c07d4, 0x664f8c30, 0x0ff1f290, 0xb3f52677), 9, 0x00000000)
         == Regs(0x8351f929, 0x4b6ae328, 0x27a301f5, 0x664f8c30, 0x0ff1f290)
  {
  }

  /** The registers after 10 steps. */
  lemma Steps10()
    ensures Steps(IV, Block(), 10) == Regs(0x8351f929, 0x4b6ae328, 0x27a301f5, 0x664f8c30, 0x0ff1f290)
  {
    hide W, Step, Steps, Block;
    NoSteps(IV, Block());
    Words0();
    Line0();
    NextStep(IV, Block(), 0);
    NextStep(IV, Block(), 1);
    NextStep(IV, Block(), 2);
    NextStep(IV, Block(), 3);
    NextStep(IV, Block(), 4);
    NextStep(IV, Block(), 5);
    NextStep(IV, Block(), 6);
    NextStep(IV, Block(), 7);
    NextStep(IV, Block(), 8);
    NextStep(IV, Block(), 9);
  }

  lemma Line10()
    ensures Step(Regs(0x8351f929, 0x4b6ae328, 0x27a301f5, 0x664f8c30, 0x0ff1f290), 10, 0x00000000)
         == Regs(0xfbda9e89, 0x8351f929, 0x12dab8ca, 0x27a301f5, 0x664f8c30)
    ensures Step(Regs(0xfbda9e89, 0x8351f929, 0x12dab8ca, 0x27a301f5, 0x664f8c30), 11, 0x00000000)
         == Regs(0x63188fe4, 0xfbda9e89, 0x60d47e4a, 0x12dab8ca, 0x27a301f5)
    ensures Step(Regs(0x63188fe4, 0xfbda9e89, 0x60d47e4a, 0x12dab8ca, 0x27a301f5), 12, 0x00000000)
         == Regs(0x4607b664, 0x63188fe4, 0x7ef6a7a2, 0x60d47e4a, 0x12dab8ca)
    ensures Step(Regs(0x4607b664, 0x63188fe4, 0x7ef6a7a2, 0x60d47e4a, 0x12dab8ca), 13, 0x00000000)
         == Regs(0x9128f695, 0x4607b664, 0x18c623f9, 0x7ef6a7a2, 0x60d47e4a)
    ensures Step(Regs(0x9128f695, 0x4607b664, 0x18c623f9, 0x7ef6a7a2, 0x60d47e4a), 14, 0x00000000)
         == Regs(0x196bee77, 0x9128f695, 0x1181ed99, 0x18c623f9, 0x7ef6a7a2)
    ensures Step(Regs(0x196bee77, 0x9128f695, 0x1181ed99, 0x18c623f9, 0x7ef6a7a2), 15, 0x00000018)
         == Regs(0x20bdd62f, 0x196bee77, 0x644a3da5, 0x1181ed99, 0x18c623f9)
    ensures Step(Regs(0x20bdd62f, 0x196bee77, 0x644a3da5, 0x1181ed99, 0x18c623f9), 16, 0xc2c4c700)
         == Regs(0x4e925823, 0x20bdd62f, 0xc65afb9d, 0x644a3da5, 0x1181ed99)
    ensures Step(Regs(0x4e925823, 0x20bdd62f, 0xc65afb9d, 0x644a3da5, 0x1181ed99), 17, 0x00000000)
         == Regs(0x82aa6728, 0x4e925823, 0xc82f758b, 0xc65afb9d, 0x644a3da5)
    ensures Step(Regs(0x82aa6728, 0x4e925823, 0xc82f758b, 0xc65afb9d, 0x644a3da5), 18, 0x00000030)
         == Regs(0xdc64901d, 0x82aa6728, 0xd3a49608, 0xc82f758b, 0xc65afb9d)
    ensures Step(Regs(0xdc64901d, 0x82aa6728, 0xd3a49608, 0xc82f758b, 0xc65afb9d), 19, 0x85898e01)
         == Regs(0xfd9e1d7d, 0xdc64901d, 0x20aa99ca, 0xd3a49608, 0xc82f758b)
  {
  }

  /** The registers after 20 steps. */
  lemma Steps20()
    ensures Steps(IV, Block(), 20) == Regs(0xfd9e1d7d, 0xdc64901d, 0x20aa99ca, 0xd3a49608, 0xc82f758b)
  {
    hide W, Step, Steps, Block;
    Steps10();
    Words0();
    Words16();
    Line10();
    NextStep(IV, Block(), 10);
    NextStep(IV, Block(), 11);
    NextStep(IV, Block(), 12);
    NextStep(IV, Block(), 13);
    NextStep(IV, Block(), 14);
    NextStep(IV, Block(), 15);
    NextStep(IV, Block(), 16);
    NextStep(IV, Block(), 17);
    NextStep(IV, Block(), 18);
    NextStep(IV, Block(), 19);
  }

  lemma Line20()
    ensures Step(Regs(0xfd9e1d7d, 0xdc64901d, 0x20aa99ca, 0xd3a49608, 0xc82f758b), 20, 0x00000000)
         == Regs(0x1a37b0ca, 0xfd9e1d7d, 0x77192407, 0x20aa99ca, 0xd3a49608)
    ensures Step(Regs(0x1a37b0ca, 0xfd9e1d7d, 0x77192407, 0x20aa99ca, 0xd3a49608), 21, 0x00000060)
         == Regs(0x33a23bfc, 0x1a37b0ca, 0x7f67875f, 0x77192407, 0x20aa99ca)
    ensures Step(Regs(0x33a23bfc, 0x1a37b0ca, 0x7f67875f, 0x77192407, 0x20aa99ca), 22, 0x0b131c03)
         == Regs(0x21283486, 0x33a23bfc, 0x868dec32, 0x7f67875f, 0x77192407)
    ensures Step(Regs(0x21283486, 0x33a23bfc, 0x868dec32, 0x7f67875f, 0x77192407), 23, 0x00000030)
         == Regs(0xd541f12d, 0x21283486, 0x0ce88eff, 0x868dec32, 0x7f67875f)
    ensures Step(Regs(0xd541f12d, 0x21283486, 0x0ce88eff, 0x868dec32, 0x7f67875f), 24, 0x85898ec1)
         == Regs(0xc7567dc6, 0xd541f12d, 0x884a0d21, 0x0ce88eff, 0x868dec32)
    ensures Step(Regs(0xc7567dc6, 0xd541f12d, 0x884a0d21, 0x0ce88eff, 0x868dec32), 25, 0x16263806)
         == Regs(0x48413ba4, 0xc7567dc6, 0x75507c4b, 0x884a0d21, 0x0ce88eff)
    ensures Step(Regs(0x48413ba4, 0xc7567dc6, 0x75507c4b, 0x884a0d21, 0x0ce88eff), 26, 0x00000000)
         == Regs(0xbe35fbd5, 0x48413ba4, 0xb1d59f71, 0x75507c4b, 0x884a0d21)
    ensures Step(Regs(0xbe35fbd5, 0x48413ba4, 0xb1d59f71, 0x75507c4b, 0x884a0d21), 27, 0x00000180)
         == Regs(0x4aa84d97, 0xbe35fbd5, 0x12104ee9, 0xb1d59f71, 0x75507c4b)
    ensures Step(Regs(0x4aa84d97, 0xbe35fbd5, 0x12104ee9, 0xb1d59f71, 0x75507c4b), 28, 0x2c4c700c)
         == Regs(0x8370b52e, 0x4aa84d97, 0x6f8d7ef5, 0x12104ee9, 0xb1d59f71)
    ensures Step(Regs(0x8370b52e, 0x4aa84d97, 0x6f8d7ef5, 0x12104ee9, 0xb1d59f71), 29, 0x000000f0)
         == Regs(0xc5fbaf5d, 0x8370b52e, 0xd2aa1365, 0x6f8d7ef5, 0x12104ee9)
  {
  }

  /** The registers after 30 steps. */
  lemma Steps30()
    ensures Steps(IV, Block(), 30) == Regs(0xc5fbaf5d, 0x8370b52e, 0xd2aa1365, 0x6f8d7ef5, 0x12104ee9)
  {
    hide W, Step, Steps, Block;
    Steps20();
    Words16();
    Words24();
    Line20();
    NextStep(IV, Block(), 20);
    NextStep(IV, Block(), 21);
    NextStep(IV, Block(), 22);
    NextStep(IV, Block(), 23);
    NextStep(IV, Block(), 24);
    NextStep(IV, Block(), 25);
    NextStep(IV, Block(), 26);
    NextStep(IV, Block(), 27);
    NextStep(IV, Block(), 28);
    NextStep(IV, Block(), 29);
  }

  lemma Line30()
    ensures Step(Regs(0xc5fbaf5d, 0x8370b52e, 0xd2aa1365, 0x6f8d7ef5, 0x12104ee9), 30, 0x93afb507)
         == Regs(0x1267b407, 0xc5fbaf5d, 0xa0dc2d4b, 0xd2aa1365, 0x6f8d7ef5)
    ensures Step(Regs(0x1267b407, 0xc5fbaf5d, 0xa0dc2d4b, 0xd2aa1365, 0x6f8d7ef5), 31, 0x5898e048)
         == Regs(0x3b845d33, 0x1267b407, 0x717eebd7, 0xa0dc2d4b, 0xd2aa1365)
    ensures Step(Regs(0x3b845d33, 0x1267b407, 0x717eebd7, 0xa0dc2d4b, 0xd2aa1365), 32, 0x8e9a9202)
         == Regs(0x046faa0a, 0x3b845d33, 0xc499ed01, 0x717eebd7, 0xa0dc2d4b)
    ensures Step(Regs(0x046faa0a, 0x3b845d33, 0xc499ed01, 0x717eebd7, 0xa0dc2d4b), 33, 0x00000600)
         == Regs(0x2c0ebc11, 0x046faa0a, 0xcee1174c, 0xc499ed01, 0x717eebd7)
    ensures Step(Regs(0x2c0ebc11, 0x046faa0a, 0xcee1174c, 0xc499ed01, 0x717eebd7), 34, 0xb131c0f0)
         == Regs(0x21796ad4, 0x2c0ebc11, 0x811bea82, 0xcee1174c, 0xc499ed01)
    ensures Step(Regs(0x21796ad4, 0x2c0ebc11, 0x811bea82, 0xcee1174c, 0xc499ed01), 35, 0x16263bc6)
         == Regs(0xdcbbb0cb, 0x21796ad4, 0x4b03af04, 0x811bea82, 0xcee1174c)
    ensures Step(Regs(0xdcbbb0cb, 0x21796ad4, 0x4b03af04, 0x811bea82, 0xcee1174c), 36, 0x4ebed41e)
         == Regs(0x0f511fd8, 0xdcbbb0cb, 0x085e5ab5, 0x4b03af04, 0x811bea82)
    ensures Step(Regs(0x0f511fd8, 0xdcbbb0cb, 0x085e5ab5, 0x4b03af04, 0x811bea82), 37, 0x626380a1)
         == Regs(0xdc63973f, 0x0f511fd8, 0xf72eec32, 0x085e5ab5, 0x4b03af04)
    ensures Step(Regs(0xdc63973f, 0x0f511fd8, 0xf72eec32, 0x085e5ab5, 0x4b03af04), 38, 0x16263806)
         == Regs(0x4c986405, 0xdc63973f, 0x03d447f6, 0xf72eec32, 0x085e5ab5)
    ensures Step(Regs(0x4c986405, 0xdc63973f, 0x03d447f6, 0xf72eec32, 0x085e5ab5), 39, 0x000018c0)
         == Regs(0x32de1cba, 0x4c986405, 0xf718e5cf, 0x03d447f6, 0xf72eec32)
  {
  }

  /** The registers after 40 steps. */
  lemma Steps40()
    ensures Steps(IV, Block(), 40) == Regs(0x32de1cba, 0x4c986405, 0xf718e5cf, 0x03d447f6, 0xf72eec32)
  {
    hide W, Step, Steps, Block;
    Steps30();
    Words24();
    Words32();
    Line30();
    NextStep(IV, Block(), 30);
    NextStep(IV, Block(), 31);
    NextStep(IV, Block(), 32);
    NextStep(IV, Block(), 33);
    NextStep(IV, Block(), 34);
    NextStep(IV, Block(), 35);
    NextStep(IV, Block(), 36);
    NextStep(IV, Block(), 37);
    NextStep(IV, Block(), 38);
    NextStep(IV, Block(), 39);
  }

  lemma Line40()
    ensures Step(Regs(0x32de1cba, 0x4c986405, 0xf718e5cf, 0x03d447f6, 0xf72eec32), 40, 0xd2e138c4)
         == Regs(0xfc87dedf, 0x32de1cba, 0x53261901, 0xf718e5cf, 0x03d447f6)
    ensures Step(Regs(0xfc87dedf, 0x32de1cba, 0x53261901, 0xf718e5cf, 0x03d447f6), 41, 0x00000f00)
         == Regs(0x970a0d5c, 0xfc87dedf, 0x8cb7872e, 0x53261901, 0xf718e5cf)
    ensures Step(Regs(0x970a0d5c, 0xfc87dedf, 0x8cb7872e, 0x53261901, 0xf718e5cf), 42, 0x3afb5079)
         == Regs(0x7f193dc5, 0x970a0d5c, 0xff21f7b7, 0x8cb7872e, 0x53261901)
    ensures Step(Regs(0x7f193dc5, 0x970a0d5c, 0xff21f7b7, 0x8cb7872e, 0x53261901), 43, 0x898e04e5)
         == Regs(0xee1b1aaf, 0x7f193dc5, 0x25c28357, 0xff21f7b7, 0x8cb7872e)
    ensures Step(Regs(0xee1b1aaf, 0x7f193dc5, 0x25c28357, 0xff21f7b7, 0x8cb7872e), 44, 0xe2ba3c2b)
         == Regs(0x40f28e09, 0xee1b1aaf, 0x5fc64f71, 0x25c28357, 0xff21f7b7)
    ensures Step(Regs(0x40f28e09, 0xee1b1aaf, 0x5fc64f71, 0x25c28357, 0xff21f7b7), 45, 0x000060c0)
         == Regs(0x1c51e1f2, 0x40f28e09, 0xfb86c6ab, 0x5fc64f71, 0x25c28357)
    ensures Step(Regs(0x1c51e1f2, 0x40f28e09, 0xfb86c6ab, 0x5fc64f71, 0x25c28357), 46, 0x053a37cd)
         == Regs(0xa01b846c, 0x1c51e1f2, 0x503ca382, 0xfb86c6ab, 0x5fc64f71)
    ensures Step(Regs(0xa01b846c, 0x1c51e1f2, 0x503ca382, 0xfb86c6ab, 0x5fc64f71), 47, 0x74458547)
         == Regs(0xbead02ca, 0xa01b846c, 0x8714787c, 0x503ca382, 0xfb86c6ab)
    ensures Step(Regs(0xbead02ca, 0xa01b846c, 0x8714787c, 0x503ca382, 0xfb86c6ab), 48, 0xda9415ed)
         == Regs(0xbaf39337, 0xbead02ca, 0x2806e11b, 0x8714787c, 0x503ca382)
    ensures Step(Regs(0xbaf39337, 0xbead02ca, 0x2806e11b, 0x8714787c, 0x503ca382), 49, 0x26380a16)
         == Regs(0x120731c5, 0xbaf39337, 0xafab40b2, 0x2806e11b, 0x8714787c)
  {
  }

  /** The registers after 50 steps. */
  lemma Steps50()
    ensures Steps(IV, Block(), 50) == Regs(0x120731c5, 0xbaf39337, 0xafab40b2, 0x2806e11b, 0x8714787c)
  {
    hide W, Step, Steps, Block;
    Steps40();
    Words40();
    Words48();
    Line40();
    NextStep(IV, Block(), 40);
    NextStep(IV, Block(), 41);
    NextStep(IV, Block(), 42);
    NextStep(IV, Block(), 43);
    NextStep(IV, Block(), 44);
    NextStep(IV, Block(), 45);
    NextStep(IV, Block(), 46);
    NextStep(IV, Block(), 47);
    NextStep(IV, Block(), 48);
    NextStep(IV, Block(), 49);
  }

  lemma Line50()
    ensures Step(Regs(0x120731c5, 0xbaf39337, 0xafab40b2, 0x2806e11b, 0x8714787c), 50, 0x626383a1)
         == Regs(0x641db2ce, 0x120731c5, 0xeebce4cd, 0xafab40b2, 0x2806e11b)
    ensures Step(Regs(0x641db2ce, 0x120731c5, 0xeebce4cd, 0xafab40b2, 0x2806e11b), 51, 0x4ebf54de)
         == Regs(0x3847ad66, 0x641db2ce, 0x4481cc71, 0xeebce4cd, 0xafab40b2)
    ensures Step(Regs(0x3847ad66, 0x641db2ce, 0x4481cc71, 0xeebce4cd, 0xafab40b2), 52, 0x3835b44b)
         == Regs(0xe490436d, 0x3847ad66, 0x99076cb3, 0x4481cc71, 0xeebce4cd)
    ensures Step(Regs(0xe490436d, 0x3847ad66, 0x99076cb3, 0x4481cc71, 0xeebce4cd), 53, 0x0000f600)
         == Regs(0x27e9f1d8, 0xe490436d, 0x8e11eb59, 0x99076cb3, 0x4481cc71)
    ensures Step(Regs(0x27e9f1d8, 0xe490436d, 0x8e11eb59, 0x99076cb3, 0x4481cc71), 54, 0x1e84c7a3)
         == Regs(0x7b71f76d, 0x27e9f1d8, 0x792410db, 0x8e11eb59, 0x99076cb3)
    ensures Step(Regs(0x7b71f76d, 0x27e9f1d8, 0x792410db, 0x8e11eb59, 0x99076cb3), 55, 0x98e04d98)
         == Regs(0x5e6456af, 0x7b71f76d, 0x09fa7c76, 0x792410db, 0x8e11eb59)
    ensures Step(Regs(0x5e6456af, 0x7b71f76d, 0x09fa7c76, 0x792410db, 0x8e11eb59), 56, 0x651d16a0)
         == Regs(0xc846093f, 0x5e6456af, 0x5edc7ddb, 0x09fa7c76, 0x792410db)
    ensures Step(Regs(0xc846093f, 0x5e6456af, 0x5edc7ddb, 0x09fa7c76, 0x792410db), 57, 0x62658ca1)
         == Regs(0xd262ff50, 0xc846093f, 0xd79915ab, 0x5edc7ddb, 0x09fa7c76)
    ensures Step(Regs(0xd262ff50, 0xc846093f, 0xd79915ab, 0x5edc7ddb, 0x09fa7c76), 58, 0x458544d6)
         == Regs(0x09d785fd, 0xd262ff50, 0xf211824f, 0xd79915ab, 0x5edc7ddb)
    ensures Step(Regs(0x09d785fd, 0xd262ff50, 0xf211824f, 0xd79915ab, 0x5edc7ddb), 59, 0x44584cb7)
         == Regs(0x3f52de5a, 0x09d785fd, 0x3498bfd4, 0xf211824f, 0xd79915ab)
  {
  }

  /** The registers after 60 steps. */
  lemma Steps60()
    ensures Steps(IV, Block(), 60) == Regs(0x3f52de5a, 0x09d785fd, 0x3498bfd4, 0xf211824f, 0xd79915ab)
  {
    hide W, Step, Steps, Block;
    Steps50();
    Words48();
    Words56();
    Line50();
    NextStep(IV, Block(), 50);
    NextStep(IV, Block(), 51);
    NextStep(IV, Block(), 52);
    NextStep(IV, Block(), 53);
    NextStep(IV, Block(), 54);
    NextStep(IV, Block(), 55);
    NextStep(IV, Block(), 56);
    NextStep(IV, Block(), 57);
    NextStep(IV, Block(), 58);
    NextStep(IV, Block(), 59);
  }

  lemma Line60()
    ensures Step(Regs(0x3f52de5a, 0x09d785fd, 0x3498bfd4, 0xf211824f, 0xd79915ab), 60, 0x7ba06619)
         == Regs(0xd756c147, 0x3f52de5a, 0x4275e17f, 0x3498bfd4, 0xf211824f)
    ensures Step(Regs(0xd756c147, 0x3f52de5a, 0x4275e17f, 0x3498bfd4, 0xf211824f), 61, 0x6380aea2)
         == Regs(0x548c9cb2, 0xd756c147, 0x8fd4b796, 0x4275e17f, 0x3498bfd4)
    ensures Step(Regs(0x548c9cb2, 0xd756c147, 0x8fd4b796, 0x4275e17f, 0x3498bfd4), 62, 0x0ae55269)
         == Regs(0xb66c020b, 0x548c9cb2, 0xf5d5b051, 0x8fd4b796, 0x4275e17f)
    ensures Step(Regs(0xb66c020b, 0x548c9cb2, 0xf5d5b051, 0x8fd4b796, 0x4275e17f), 63, 0x627b49a1)
         == Regs(0x6b61c9e1, 0xb66c020b, 0x9523272c, 0xf5d5b051, 0x8fd4b796)
    ensures Step(Regs(0x6b61c9e1, 0xb66c020b, 0x9523272c, 0xf5d5b051, 0x8fd4b796), 64, 0x7cd45c9d)
         == Regs(0x19dfa7ac, 0x6b61c9e1, 0xed9b0082, 0x9523272c, 0xf5d5b051)
    ensures Step(Regs(0x19dfa7ac, 0x6b61c9e1, 0xed9b0082, 0x9523272c, 0xf5d5b051), 65, 0x000f0000)
         == Regs(0x101655f9, 0x19dfa7ac, 0x5ad87278, 0xed9b0082, 0x9523272c)
    ensures Step(Regs(0x101655f9, 0x19dfa7ac, 0x5ad87278, 0xed9b0082, 0x9523272c), 66, 0xfb50753a)
         == Regs(0x0c3df2b4, 0x101655f9, 0x0677e9eb, 0x5ad87278, 0xed9b0082)
    ensures Step(Regs(0x0c3df2b4, 0x101655f9, 0x0677e9eb, 0x5ad87278, 0xed9b0082), 67, 0xec6765e8)
         == Regs(0x78dd4d2b, 0x0c3df2b4, 0x4405957e, 0x0677e9eb, 0x5ad87278)
    ensures Step(Regs(0x78dd4d2b, 0x0c3df2b4, 0x4405957e, 0x0677e9eb, 0x5ad87278), 68, 0xba3c2be2)
         == Regs(0x497093c0, 0x78dd4d2b, 0x030f7cad, 0x4405957e, 0x0677e9eb)
    ensures Step(Regs(0x497093c0, 0x78dd4d2b, 0x030f7cad, 0x4405957e, 0x0677e9eb), 69, 0x0060c000)
         == Regs(0x3f2588c2, 0x497093c0, 0xde37534a, 0x030f7cad, 0x4405957e)
  {
  }

  /** The registers after 70 steps. */
  lemma Steps70()
    ensures Steps(IV, Block(), 70) == Regs(0x3f2588c2, 0x497093c0, 0xde37534a, 0x030f7cad, 0x4405957e)
  {
    hide W, Step, Steps, Block;
    Steps60();
    Words56();
    Words64();
    Line60();
    NextStep(IV, Block(), 60);
    NextStep(IV, Block(), 61);
    NextStep(IV, Block(), 62);
    NextStep(IV, Block(), 63);
    NextStep(IV, Block(), 64);
    NextStep(IV, Block(), 65);
    NextStep(IV, Block(), 66);
    NextStep(IV, Block(), 67);
    NextStep(IV, Block(), 68);
    NextStep(IV, Block(), 69);
  }

  lemma Line70()
    ensures Step(Regs(0x3f2588c2, 0x497093c0, 0xde37534a, 0x030f7cad, 0x4405957e), 70, 0x3a37cd05)
         == Regs(0xc199f8c7, 0x3f2588c2, 0x125c24f0, 0xde37534a, 0x030f7cad)
    ensures Step(Regs(0xc199f8c7, 0x3f2588c2, 0x125c24f0, 0xde37534a, 0x030f7cad), 71, 0x458546f4)
         == Regs(0x39859de7, 0xc199f8c7, 0x8fc96230, 0x125c24f0, 0xde37534a)
    ensures Step(Regs(0x39859de7, 0xc199f8c7, 0x8fc96230, 0x125c24f0, 0xde37534a), 72, 0xb8599dd6)
         == Regs(0xedb42de4, 0x39859de7, 0xf0667e31, 0x8fc96230, 0x125c24f0)
    ensures Step(Regs(0xedb42de4, 0x39859de7, 0xf0667e31, 0x8fc96230, 0x125c24f0), 73, 0x380a1a26)
         == Regs(0x11793f6f, 0xedb42de4, 0xce616779, 0xf0667e31, 0x8fc96230)
    ensures Step(Regs(0x11793f6f, 0xedb42de4, 0xce616779, 0xf0667e31, 0x8fc96230), 74, 0x01e02203)
         == Regs(0x5ee76897, 0x11793f6f, 0x3b6d0b79, 0xce616779, 0xf0667e31)
    ensures Step(Regs(0x5ee76897, 0x11793f6f, 0x3b6d0b79, 0xce616779, 0xf0667e31), 75, 0xe7cc3456)
         == Regs(0x63f7dab7, 0x5ee76897, 0xc45e4fdb, 0x3b6d0b79, 0xce616779)
    ensures Step(Regs(0x63f7dab7, 0x5ee76897, 0xc45e4fdb, 0x3b6d0b79, 0xce616779), 76, 0xe6e60b69)
         == Regs(0xa079b7d9, 0x63f7dab7, 0xd7b9da25, 0xc45e4fdb, 0x3b6d0b79)
    ensures Step(Regs(0xa079b7d9, 0x63f7dab7, 0xd7b9da25, 0xc45e4fdb, 0x3b6d0b79), 77, 0x00f60a00)
         == Regs(0x860d21cc, 0xa079b7d9, 0xd8fdf6ad, 0xd7b9da25, 0xc45e4fdb)
    ensures Step(Regs(0x860d21cc, 0xa079b7d9, 0xd8fdf6ad, 0xd7b9da25, 0xc45e4fdb), 78, 0x5795ef4f)
         == Regs(0x5738d5e1, 0x860d21cc, 0x681e6df6, 0xd8fdf6ad, 0xd7b9da25)
    ensures Step(Regs(0x5738d5e1, 0x860d21cc, 0x681e6df6, 0xd8fdf6ad, 0xd7b9da25), 79, 0x822e0879)
         == Regs(0x42541b35, 0x5738d5e1, 0x21834873, 0x681e6df6, 0xd8fdf6ad)
  {
  }

  /** The registers after 80 steps. */
  lemma Steps80()
    ensures Steps(IV, Block(), 80) == Regs(0x42541b35, 0x5738d5e1, 0x21834873, 0x681e6df6, 0xd8fdf6ad)
  {
    hide W, Step, Steps, Block;
    Steps70();
    Words64();
    Words72();
    Line70();
    NextStep(IV, Block(), 70);
    NextStep(IV, Block(), 71);
    NextStep(IV, Block(), 72);
    NextStep(IV, Block(), 73);
    NextStep(IV, Block(), 74);
    NextStep(IV, Block(), 75);
    NextStep(IV, Block(), 76);
    NextStep(IV, Block(), 77);
    NextStep(IV, Block(), 78);
    NextStep(IV, Block(), 79);
  }

  lemma Added()
    ensures Sum(IV, Regs(0x42541b35, 0x5738d5e1, 0x21834873, 0x681e6df6, 0xd8fdf6ad))
         == Regs(0xa9993e36, 0x4706816a, 0xba3e2571, 0x7850c26c, 0x9cd0d89d)
  {
  }

  lemma OutputWords()
    ensures WordBytes(0xa9993e36) == [0xa9, 0x99, 0x3e, 0x36]
    ensures WordBytes(0x4706816a) == [0x47, 0x06, 0x81, 0x6a]
    ensures WordBytes(0xba3e2571) == [0xba, 0x3e, 0x25, 0x71]
    ensures WordBytes(0x7850c26c) == [0x78, 0x50, 0xc2, 0x6c]
    ensures WordBytes(0x9cd0d89d) == [0x9c, 0xd0, 0xd8, 0x9d]
  {
    hide BigEndian;
    FourBytes(0xa9993e36, 0xa9, 0x99, 0x3e, 0x36);
    FourBytes(0x4706816a, 0x47, 0x06, 0x81, 0x6a);
    FourBytes(0xba3e2571, 0xba, 0x3e, 0x25, 0x71);
    FourBytes(0x7850c26c, 0x78, 0x50, 0xc2, 0x6c);
    FourBytes(0x9cd0d89d, 0x9c, 0xd0, 0xd8, 0x9d);
  }

  /** The digest of "abc" is that of Appendix A. */
  lemma DigestOfAbc()
    ensures Digest(ABC) == [0xa9, 0x99, 0x3e, 0x36, 0x47, 0x06, 0x81, 0x6a, 0xba, 0x3e, 0x25, 0x71, 0x78, 0x50, 0xc2, 0x6c,
                            0x9c, 0xd0, 0xd8, 0x9d]
  {
    hide Steps, Sum, WordBytes, Fold, Padded;
    FoldBlock(Compress, IV);
    Steps80();
    Added();
    OutputWords();
    BlockBytes();
  }
}
