/** A digest that is known: SHA-1 of the three bytes "abc", worked out round by round.  It ties
    the standard's side of the proofs to a value published with the standard. */
module Sha1Abc {
  import opened Bytes
  import opened Sha1Spec
  import opened WordArithmetic
  import opened Sha1

  // Schedule word t from the four words it is made of.
  lemma Word(block: seq<bv32>, t: nat, a: bv32, b: bv32, c: bv32, d: bv32, x: bv32)
    requires |block| == 16 && t >= 16
    requires Schedule(WORDS, block, t - 3) == a && Schedule(WORDS, block, t - 8) == b
    requires Schedule(WORDS, block, t - 14) == c && Schedule(WORDS, block, t - 16) == d
    requires x == RotL1(Xor32(Xor32(Xor32(a, b), c), d))
    ensures Schedule(WORDS, block, t) == x
  {
  }

  // Round t: the variables before it, its schedule word, and the two it computes.
  lemma Turn(block: seq<bv32>, t: nat, a: bv32, b: bv32, c: bv32, d: bv32, e: bv32, w: bv32, a': bv32, b': bv32)
    requires |block| == 16
    requires Rounds(WORDS, SHA1.initial, block, t) == Hash(a, b, c, d, e) && Schedule(WORDS, block, t) == w
    requires a' == Add32(Add32(Add32(Add32(RotL5(a), F(WORDS, t, b, c, d)), e), K(t)), w) && b' == RotL30(b)
    ensures Rounds(WORDS, SHA1.initial, block, t + 1) == Hash(a', a, b', c, d)
  {
  }

  lemma Words16(block: seq<bv32>)
    requires |block| == 16
    requires Schedule(WORDS, block, 0) == 0x61626380 && Schedule(WORDS, block, 1) == 0x00000000
    requires Schedule(WORDS, block, 2) == 0x00000000 && Schedule(WORDS, block, 3) == 0x00000000
    requires Schedule(WORDS, block, 4) == 0x00000000 && Schedule(WORDS, block, 5) == 0x00000000
    requires Schedule(WORDS, block, 6) == 0x00000000 && Schedule(WORDS, block, 7) == 0x00000000
    requires Schedule(WORDS, block, 8) == 0x00000000 && Schedule(WORDS, block, 9) == 0x00000000
    requires Schedule(WORDS, block, 10) == 0x00000000 && Schedule(WORDS, block, 11) == 0x00000000
    requires Schedule(WORDS, block, 12) == 0x00000000 && Schedule(WORDS, block, 13) == 0x00000000
    requires Schedule(WORDS, block, 14) == 0x00000000 && Schedule(WORDS, block, 15) == 0x00000018
    ensures Schedule(WORDS, block, 16) == 0xc2c4c700 && Schedule(WORDS, block, 17) == 0x00000000
    ensures Schedule(WORDS, block, 18) == 0x00000030 && Schedule(WORDS, block, 19) == 0x85898e01
    ensures Schedule(WORDS, block, 20) == 0x00000000 && Schedule(WORDS, block, 21) == 0x00000060
    ensures Schedule(WORDS, block, 22) == 0x0b131c03 && Schedule(WORDS, block, 23) == 0x00000030
    ensures Schedule(WORDS, block, 24) == 0x85898ec1 && Schedule(WORDS, block, 25) == 0x16263806
    ensures Schedule(WORDS, block, 26) == 0x00000000 && Schedule(WORDS, block, 27) == 0x00000180
    ensures Schedule(WORDS, block, 28) == 0x2c4c700c && Schedule(WORDS, block, 29) == 0x000000f0
    ensures Schedule(WORDS, block, 30) == 0x93afb507 && Schedule(WORDS, block, 31) == 0x5898e048
  {
    Word(block, 16, 0x00000000, 0x00000000, 0x00000000, 0x61626380, 0xc2c4c700);
    Word(block, 17, 0x00000000, 0x00000000, 0x00000000, 0x00000000, 0x00000000);
    Word(block, 18, 0x00000018, 0x00000000, 0x00000000, 0x00000000, 0x00000030);
    Word(block, 19, 0xc2c4c700, 0x00000000, 0x00000000, 0x00000000, 0x85898e01);
    Word(block, 20, 0x00000000, 0x00000000, 0x00000000, 0x00000000, 0x00000000);
    Word(block, 21, 0x00000030, 0x00000000, 0x00000000, 0x00000000, 0x00000060);
    Word(block, 22, 0x85898e01, 0x00000000, 0x00000000, 0x00000000, 0x0b131c03);
    Word(block, 23, 0x00000000, 0x00000018, 0x00000000, 0x00000000, 0x00000030);
    Word(block, 24, 0x00000060, 0xc2c4c700, 0x00000000, 0x00000000, 0x85898ec1);
    Word(block, 25, 0x0b131c03, 0x00000000, 0x00000000, 0x00000000, 0x16263806);
    Word(block, 26, 0x00000030, 0x00000030, 0x00000000, 0x00000000, 0x00000000);
    Word(block, 27, 0x85898ec1, 0x85898e01, 0x00000000, 0x00000000, 0x00000180);
    Word(block, 28, 0x16263806, 0x00000000, 0x00000000, 0x00000000, 0x2c4c700c);
    Word(block, 29, 0x00000000, 0x00000060, 0x00000018, 0x00000000, 0x000000f0);
    Word(block, 30, 0x00000180, 0x0b131c03, 0xc2c4c700, 0x00000000, 0x93afb507);
    Word(block, 31, 0x2c4c700c, 0x00000030, 0x00000000, 0x00000018, 0x5898e048);
  }

  lemma Words32(block: seq<bv32>)
    requires |block| == 16
    requires Schedule(WORDS, block, 16) == 0xc2c4c700 && Schedule(WORDS, block, 17) == 0x00000000
    requires Schedule(WORDS, block, 18) == 0x00000030 && Schedule(WORDS, block, 19) == 0x85898e01
    requires Schedule(WORDS, block, 20) == 0x00000000 && Schedule(WORDS, block, 21) == 0x00000060
    requires Schedule(WORDS, block, 22) == 0x0b131c03 && Schedule(WORDS, block, 23) == 0x00000030
    requires Schedule(WORDS, block, 24) == 0x85898ec1 && Schedule(WORDS, block, 25) == 0x16263806
    requires Schedule(WORDS, block, 26) == 0x00000000 && Schedule(WORDS, block, 27) == 0x00000180
    requires Schedule(WORDS, block, 28) == 0x2c4c700c && Schedule(WORDS, block, 29) == 0x000000f0
    requires Schedule(WORDS, block, 30) == 0x93afb507 && Schedule(WORDS, block, 31) == 0x5898e048
    ensures Schedule(WORDS, block, 32) == 0x8e9a9202 && Schedule(WORDS, block, 33) == 0x00000600
    ensures Schedule(WORDS, block, 34) == 0xb131c0f0 && Schedule(WORDS, block, 35) == 0x16263bc6
    ensures Schedule(WORDS, block, 36) == 0x4ebed41e && Schedule(WORDS, block, 37) == 0x626380a1
    ensures Schedule(WORDS, block, 38) == 0x16263806 && Schedule(WORDS, block, 39) == 0x000018c0
    ensures Schedule(WORDS, block, 40) == 0xd2e138c4 && Schedule(WORDS, block, 41) == 0x00000f00
    ensures Schedule(WORDS, block, 42) == 0x3afb5079 && Schedule(WORDS, block, 43) == 0x898e04e5
    ensures Schedule(WORDS, block, 44) == 0xe2ba3c2b && Schedule(WORDS, block, 45) == 0x000060c0
    ensures Schedule(WORDS, block, 46) == 0x053a37cd && Schedule(WORDS, block, 47) == 0x74458547
  {
    Word(block, 32, 0x000000f0, 0x85898ec1, 0x00000030, 0xc2c4c700, 0x8e9a9202);
    Word(block, 33, 0x93afb507, 0x16263806, 0x85898e01, 0x00000000, 0x00000600);
    Word(block, 34, 0x5898e048, 0x00000000, 0x00000000, 0x00000030, 0xb131c0f0);
    Word(block, 35, 0x8e9a9202, 0x00000180, 0x00000060, 0x85898e01, 0x16263bc6);
    Word(block, 36, 0x00000600, 0x2c4c700c, 0x0b131c03, 0x00000000, 0x4ebed41e);
    Word(block, 37, 0xb131c0f0, 0x000000f0, 0x00000030, 0x00000060, 0x626380a1);
    Word(block, 38, 0x16263bc6, 0x93afb507, 0x85898ec1, 0x0b131c03, 0x16263806);
    Word(block, 39, 0x4ebed41e, 0x5898e048, 0x16263806, 0x00000030, 0x000018c0);
    Word(block, 40, 0x626380a1, 0x8e9a9202, 0x00000000, 0x85898ec1, 0xd2e138c4);
    Word(block, 41, 0x16263806, 0x00000600, 0x00000180, 0x16263806, 0x00000f00);
    Word(block, 42, 0x000018c0, 0xb131c0f0, 0x2c4c700c, 0x00000000, 0x3afb5079);
    Word(block, 43, 0xd2e138c4, 0x16263bc6, 0x000000f0, 0x00000180, 0x898e04e5);
    Word(block, 44, 0x00000f00, 0x4ebed41e, 0x93afb507, 0x2c4c700c, 0xe2ba3c2b);
    Word(block, 45, 0x3afb5079, 0x626380a1, 0x5898e048, 0x000000f0, 0x000060c0);
    Word(block, 46, 0x898e04e5, 0x16263806, 0x8e9a9202, 0x93afb507, 0x053a37cd);
    Word(block, 47, 0xe2ba3c2b, 0x000018c0, 0x00000600, 0x5898e048, 0x74458547);
  }

  lemma Words48(block: seq<bv32>)
    requires |block| == 16
    requires Schedule(WORDS, block, 32) == 0x8e9a9202 && Schedule(WORDS, block, 33) == 0x00000600
    requires Schedule(WORDS, block, 34) == 0xb131c0f0 && Schedule(WORDS, block, 35) == 0x16263bc6
    requires Schedule(WORDS, block, 36) == 0x4ebed41e && Schedule(WORDS, block, 37) == 0x626380a1
    requires Schedule(WORDS, block, 38) == 0x16263806 && Schedule(WORDS, block, 39) == 0x000018c0
    requires Schedule(WORDS, block, 40) == 0xd2e138c4 && Schedule(WORDS, block, 41) == 0x00000f00
    requires Schedule(WORDS, block, 42) == 0x3afb5079 && Schedule(WORDS, block, 43) == 0x898e04e5
    requires Schedule(WORDS, block, 44) == 0xe2ba3c2b && Schedule(WORDS, block, 45) == 0x000060c0
    requires Schedule(WORDS, block, 46) == 0x053a37cd && Schedule(WORDS, block, 47) == 0x74458547
    ensures Schedule(WORDS, block, 48) == 0xda9415ed && Schedule(WORDS, block, 49) == 0x26380a16
    ensures Schedule(WORDS, block, 50) == 0x626383a1 && Schedule(WORDS, block, 51) == 0x4ebf54de
    ensures Schedule(WORDS, block, 52) == 0x3835b44b && Schedule(WORDS, block, 53) == 0x0000f600
    ensures Schedule(WORDS, block, 54) == 0x1e84c7a3 && Schedule(WORDS, block, 55) == 0x98e04d98
    ensures Schedule(WORDS, block, 56) == 0x651d16a0 && Schedule(WORDS, block, 57) == 0x62658ca1
    ensures Schedule(WORDS, block, 58) == 0x458544d6 && Schedule(WORDS, block, 59) == 0x44584cb7
    ensures Schedule(WORDS, block, 60) == 0x7ba06619 && Schedule(WORDS, block, 61) == 0x6380aea2
    ensures Schedule(WORDS, block, 62) == 0x0ae55269 && Schedule(WORDS, block, 63) == 0x627b49a1
  {
    Word(block, 48, 0x000060c0, 0xd2e138c4, 0xb131c0f0, 0x8e9a9202, 0xda9415ed);
    Word(block, 49, 0x053a37cd, 0x00000f00, 0x16263bc6, 0x00000600, 0x26380a16);
    Word(block, 50, 0x74458547, 0x3afb5079, 0x4ebed41e, 0xb131c0f0, 0x626383a1);
    Word(block, 51, 0xda9415ed, 0x898e04e5, 0x626380a1, 0x16263bc6, 0x4ebf54de);
    Word(block, 52, 0x26380a16, 0xe2ba3c2b, 0x16263806, 0x4ebed41e, 0x3835b44b);
    Word(block, 53, 0x626383a1, 0x000060c0, 0x000018c0, 0x626380a1, 0x0000f600);
    Word(block, 54, 0x4ebf54de, 0x053a37cd, 0xd2e138c4, 0x16263806, 0x1e84c7a3);
    Word(block, 55, 0x3835b44b, 0x74458547, 0x00000f00, 0x000018c0, 0x98e04d98);
    Word(block, 56, 0x0000f600, 0xda9415ed, 0x3afb5079, 0xd2e138c4, 0x651d16a0);
    Word(block, 57, 0x1e84c7a3, 0x26380a16, 0x898e04e5, 0x00000f00, 0x62658ca1);
    Word(block, 58, 0x98e04d98, 0x626383a1, 0xe2ba3c2b, 0x3afb5079, 0x458544d6);
    Word(block, 59, 0x651d16a0, 0x4ebf54de, 0x000060c0, 0x898e04e5, 0x44584cb7);
    Word(block, 60, 0x62658ca1, 0x3835b44b, 0x053a37cd, 0xe2ba3c2b, 0x7ba06619);
    Word(block, 61, 0x458544d6, 0x0000f600, 0x74458547, 0x000060c0, 0x6380aea2);
    Word(block, 62, 0x44584cb7, 0x1e84c7a3, 0xda9415ed, 0x053a37cd, 0x0ae55269);
    Word(block, 63, 0x7ba06619, 0x98e04d98, 0x26380a16, 0x74458547, 0x627b49a1);
  }

  lemma Words64(block: seq<bv32>)
    requires |block| == 16
    requires Schedule(WORDS, block, 48) == 0xda9415ed && Schedule(WORDS, block, 49) == 0x26380a16
    requires Schedule(WORDS, block, 50) == 0x626383a1 && Schedule(WORDS, block, 51) == 0x4ebf54de
    requires Schedule(WORDS, block, 52) == 0x3835b44b && Schedule(WORDS, block, 53) == 0x0000f600
    requires Schedule(WORDS, block, 54) == 0x1e84c7a3 && Schedule(WORDS, block, 55) == 0x98e04d98
    requires Schedule(WORDS, block, 56) == 0x651d16a0 && Schedule(WORDS, block, 57) == 0x62658ca1
    requires Schedule(WORDS, block, 58) == 0x458544d6 && Schedule(WORDS, block, 59) == 0x44584cb7
    requires Schedule(WORDS, block, 60) == 0x7ba06619 && Schedule(WORDS, block, 61) == 0x6380aea2
    requires Schedule(WORDS, block, 62) == 0x0ae55269 && Schedule(WORDS, block, 63) == 0x627b49a1
    ensures Schedule(WORDS, block, 64) == 0x7cd45c9d && Schedule(WORDS, block, 65) == 0x000f0000
    ensures Schedule(WORDS, block, 66) == 0xfb50753a && Schedule(WORDS, block, 67) == 0xec6765e8
    ensures Schedule(WORDS, block, 68) == 0xba3c2be2 && Schedule(WORDS, block, 69) == 0x0060c000
    ensures Schedule(WORDS, block, 70) == 0x3a37cd05 && Schedule(WORDS, block, 71) == 0x458546f4
    ensures Schedule(WORDS, block, 72) == 0xb8599dd6 && Schedule(WORDS, block, 73) == 0x380a1a26
    ensures Schedule(WORDS, block, 74) == 0x01e02203 && Schedule(WORDS, block, 75) == 0xe7cc3456
    ensures Schedule(WORDS, block, 76) == 0xe6e60b69 && Schedule(WORDS, block, 77) == 0x00f60a00
    ensures Schedule(WORDS, block, 78) == 0x5795ef4f && Schedule(WORDS, block, 79) == 0x822e0879
  {
    Word(block, 64, 0x6380aea2, 0x651d16a0, 0x626383a1, 0xda9415ed, 0x7cd45c9d);
    Word(block, 65, 0x0ae55269, 0x62658ca1, 0x4ebf54de, 0x26380a16, 0x000f0000);
    Word(block, 66, 0x627b49a1, 0x458544d6, 0x3835b44b, 0x626383a1, 0xfb50753a);
    Word(block, 67, 0x7cd45c9d, 0x44584cb7, 0x0000f600, 0x4ebf54de, 0xec6765e8);
    Word(block, 68, 0x000f0000, 0x7ba06619, 0x1e84c7a3, 0x3835b44b, 0xba3c2be2);
    Word(block, 69, 0xfb50753a, 0x6380aea2, 0x98e04d98, 0x0000f600, 0x0060c000);
    Word(block, 70, 0xec6765e8, 0x0ae55269, 0x651d16a0, 0x1e84c7a3, 0x3a37cd05);
    Word(block, 71, 0xba3c2be2, 0x627b49a1, 0x62658ca1, 0x98e04d98, 0x458546f4);
    Word(block, 72, 0x0060c000, 0x7cd45c9d, 0x458544d6, 0x651d16a0, 0xb8599dd6);
    Word(block, 73, 0x3a37cd05, 0x000f0000, 0x44584cb7, 0x62658ca1, 0x380a1a26);
    Word(block, 74, 0x458546f4, 0xfb50753a, 0x7ba06619, 0x458544d6, 0x01e02203);
    Word(block, 75, 0xb8599dd6, 0xec6765e8, 0x6380aea2, 0x44584cb7, 0xe7cc3456);
    Word(block, 76, 0x380a1a26, 0xba3c2be2, 0x0ae55269, 0x7ba06619, 0xe6e60b69);
    Word(block, 77, 0x01e02203, 0x0060c000, 0x627b49a1, 0x6380aea2, 0x00f60a00);
    Word(block, 78, 0xe7cc3456, 0x3a37cd05, 0x7cd45c9d, 0x0ae55269, 0x5795ef4f);
    Word(block, 79, 0xe6e60b69, 0x458546f4, 0x000f0000, 0x627b49a1, 0x822e0879);
  }

  lemma Rounds0(block: seq<bv32>)
    requires |block| == 16
    requires Rounds(WORDS, SHA1.initial, block, 0) == Hash(0x67452301, 0xefcdab89, 0x98badcfe, 0x10325476, 0xc3d2e1f0)
    requires Schedule(WORDS, block, 0) == 0x61626380 && Schedule(WORDS, block, 1) == 0x00000000
    requires Schedule(WORDS, block, 2) == 0x00000000 && Schedule(WORDS, block, 3) == 0x00000000
    requires Schedule(WORDS, block, 4) == 0x00000000 && Schedule(WORDS, block, 5) == 0x00000000
    requires Schedule(WORDS, block, 6) == 0x00000000 && Schedule(WORDS, block, 7) == 0x00000000
    requires Schedule(WORDS, block, 8) == 0x00000000 && Schedule(WORDS, block, 9) == 0x00000000
    requires Schedule(WORDS, block, 10) == 0x00000000 && Schedule(WORDS, block, 11) == 0x00000000
    requires Schedule(WORDS, block, 12) == 0x00000000 && Schedule(WORDS, block, 13) == 0x00000000
    requires Schedule(WORDS, block, 14) == 0x00000000 && Schedule(WORDS, block, 15) == 0x00000018
    requires Schedule(WORDS, block, 16) == 0xc2c4c700 && Schedule(WORDS, block, 17) == 0x00000000
    requires Schedule(WORDS, block, 18) == 0x00000030 && Schedule(WORDS, block, 19) == 0x85898e01
    ensures Rounds(WORDS, SHA1.initial, block, 20) == Hash(0xfd9e1d7d, 0xdc64901d, 0x20aa99ca, 0xd3a49608, 0xc82f758b)
  {
    Turn(block, 0, 0x67452301, 0xefcdab89, 0x98badcfe, 0x10325476, 0xc3d2e1f0, 0x61626380, 0x0116fc33, 0x7bf36ae2);
    Turn(block, 1, 0x0116fc33, 0x67452301, 0x7bf36ae2, 0x98badcfe, 0x10325476, 0x00000000, 0x8990536d, 0x59d148c0);
    Turn(block, 2, 0x8990536d, 0x0116fc33, 0x59d148c0, 0x7bf36ae2, 0x98badcfe, 0x00000000, 0xa1390f08, 0xc045bf0c);
    Turn(block, 3, 0xa1390f08, 0x8990536d, 0xc045bf0c, 0x59d148c0, 0x7bf36ae2, 0x00000000, 0xcdd8e11b, 0x626414db);
    Turn(block, 4, 0xcdd8e11b, 0xa1390f08, 0x626414db, 0xc045bf0c, 0x59d148c0, 0x00000000, 0xcfd499de, 0x284e43c2);
    Turn(block, 5, 0xcfd499de, 0xcdd8e11b, 0x284e43c2, 0x626414db, 0xc045bf0c, 0x00000000, 0x3fc7ca40, 0xf3763846);
    Turn(block, 6, 0x3fc7ca40, 0xcfd499de, 0xf3763846, 0x284e43c2, 0x626414db, 0x00000000, 0x993e30c1, 0xb3f52677);
    Turn(block, 7, 0x993e30c1, 0x3fc7ca40, 0xb3f52677, 0xf3763846, 0x284e43c2, 0x00000000, 0x9e8c07d4, 0x0ff1f290);
    Turn(block, 8, 0x9e8c07d4, 0x993e30c1, 0x0ff1f290, 0xb3f52677, 0xf3763846, 0x00000000, 0x4b6ae328, 0x664f8c30);
    Turn(block, 9, 0x4b6ae328, 0x9e8c07d4, 0x664f8c30, 0x0ff1f290, 0xb3f52677, 0x00000000, 0x8351f929, 0x27a301f5);
    Turn(block, 10, 0x8351f929, 0x4b6ae328, 0x27a301f5, 0x664f8c30, 0x0ff1f290, 0x00000000, 0xfbda9e89, 0x12dab8ca);
    Turn(block, 11, 0xfbda9e89, 0x8351f929, 0x12dab8ca, 0x27a301f5, 0x664f8c30, 0x00000000, 0x63188fe4, 0x60d47e4a);
    Turn(block, 12, 0x63188fe4, 0xfbda9e89, 0x60d47e4a, 0x12dab8ca, 0x27a301f5, 0x00000000, 0x4607b664, 0x7ef6a7a2);
    Turn(block, 13, 0x4607b664, 0x63188fe4, 0x7ef6a7a2, 0x60d47e4a, 0x12dab8ca, 0x00000000, 0x9128f695, 0x18c623f9);
    Turn(block, 14, 0x9128f695, 0x4607b664, 0x18c623f9, 0x7ef6a7a2, 0x60d47e4a, 0x00000000, 0x196bee77, 0x1181ed99);
    Turn(block, 15, 0x196bee77, 0x9128f695, 0x1181ed99, 0x18c623f9, 0x7ef6a7a2, 0x00000018, 0x20bdd62f, 0x644a3da5);
    Turn(block, 16, 0x20bdd62f, 0x196bee77, 0x644a3da5, 0x1181ed99, 0x18c623f9, 0xc2c4c700, 0x4e925823, 0xc65afb9d);
    Turn(block, 17, 0x4e925823, 0x20bdd62f, 0xc65afb9d, 0x644a3da5, 0x1181ed99, 0x00000000, 0x82aa6728, 0xc82f758b);
    Turn(block, 18, 0x82aa6728, 0x4e925823, 0xc82f758b, 0xc65afb9d, 0x644a3da5, 0x00000030, 0xdc64901d, 0xd3a49608);
    Turn(block, 19, 0xdc64901d, 0x82aa6728, 0xd3a49608, 0xc82f758b, 0xc65afb9d, 0x85898e01, 0xfd9e1d7d, 0x20aa99ca);
  }

  lemma Rounds20(block: seq<bv32>)
    requires |block| == 16
    requires Rounds(WORDS, SHA1.initial, block, 20) == Hash(0xfd9e1d7d, 0xdc64901d, 0x20aa99ca, 0xd3a49608, 0xc82f758b)
    requires Schedule(WORDS, block, 20) == 0x00000000 && Schedule(WORDS, block, 21) == 0x00000060
    requires Schedule(WORDS, block, 22) == 0x0b131c03 && Schedule(WORDS, block, 23) == 0x00000030
    requires Schedule(WORDS, block, 24) == 0x85898ec1 && Schedule(WORDS, block, 25) == 0x16263806
    requires Schedule(WORDS, block, 26) == 0x00000000 && Schedule(WORDS, block, 27) == 0x00000180
    requires Schedule(WORDS, block, 28) == 0x2c4c700c && Schedule(WORDS, block, 29) == 0x000000f0
    requires Schedule(WORDS, block, 30) == 0x93afb507 && Schedule(WORDS, block, 31) == 0x5898e048
    requires Schedule(WORDS, block, 32) == 0x8e9a9202 && Schedule(WORDS, block, 33) == 0x00000600
    requires Schedule(WORDS, block, 34) == 0xb131c0f0 && Schedule(WORDS, block, 35) == 0x16263bc6
    requires Schedule(WORDS, block, 36) == 0x4ebed41e && Schedule(WORDS, block, 37) == 0x626380a1
    requires Schedule(WORDS, block, 38) == 0x16263806 && Schedule(WORDS, block, 39) == 0x000018c0
    ensures Rounds(WORDS, SHA1.initial, block, 40) == Hash(0x32de1cba, 0x4c986405, 0xf718e5cf, 0x03d447f6, 0xf72eec32)
  {
    Turn(block, 20, 0xfd9e1d7d, 0xdc64901d, 0x20aa99ca, 0xd3a49608, 0xc82f758b, 0x00000000, 0x1a37b0ca, 0x77192407);
    Turn(block, 21, 0x1a37b0ca, 0xfd9e1d7d, 0x77192407, 0x20aa99ca, 0xd3a49608, 0x00000060, 0x33a23bfc, 0x7f67875f);
    Turn(block, 22, 0x33a23bfc, 0x1a37b0ca, 0x7f67875f, 0x77192407, 0x20aa99ca, 0x0b131c03, 0x21283486, 0x868dec32);
    Turn(block, 23, 0x21283486, 0x33a23bfc, 0x868dec32, 0x7f67875f, 0x77192407, 0x00000030, 0xd541f12d, 0x0ce88eff);
    Turn(block, 24, 0xd541f12d, 0x21283486, 0x0ce88eff, 0x868dec32, 0x7f67875f, 0x85898ec1, 0xc7567dc6, 0x884a0d21);
    Turn(block, 25, 0xc7567dc6, 0xd541f12d, 0x884a0d21, 0x0ce88eff, 0x868dec32, 0x16263806, 0x48413ba4, 0x75507c4b);
    Turn(block, 26, 0x48413ba4, 0xc7567dc6, 0x75507c4b, 0x884a0d21, 0x0ce88eff, 0x00000000, 0xbe35fbd5, 0xb1d59f71);
    Turn(block, 27, 0xbe35fbd5, 0x48413ba4, 0xb1d59f71, 0x75507c4b, 0x884a0d21, 0x00000180, 0x4aa84d97, 0x12104ee9);
    Turn(block, 28, 0x4aa84d97, 0xbe35fbd5, 0x12104ee9, 0xb1d59f71, 0x75507c4b, 0x2c4c700c, 0x8370b52e, 0x6f8d7ef5);
    Turn(block, 29, 0x8370b52e, 0x4aa84d97, 0x6f8d7ef5, 0x12104ee9, 0xb1d59f71, 0x000000f0, 0xc5fbaf5d, 0xd2aa1365);
    Turn(block, 30, 0xc5fbaf5d, 0x8370b52e, 0xd2aa1365, 0x6f8d7ef5, 0x12104ee9, 0x93afb507, 0x1267b407, 0xa0dc2d4b);
    Turn(block, 31, 0x1267b407, 0xc5fbaf5d, 0xa0dc2d4b, 0xd2aa1365, 0x6f8d7ef5, 0x5898e048, 0x3b845d33, 0x717eebd7);
    Turn(block, 32, 0x3b845d33, 0x1267b407, 0x717eebd7, 0xa0dc2d4b, 0xd2aa1365, 0x8e9a9202, 0x046faa0a, 0xc499ed01);
    Turn(block, 33, 0x046faa0a, 0x3b845d33, 0xc499ed01, 0x717eebd7, 0xa0dc2d4b, 0x00000600, 0x2c0ebc11, 0xcee1174c);
    Turn(block, 34, 0x2c0ebc11, 0x046faa0a, 0xcee1174c, 0xc499ed01, 0x717eebd7, 0xb131c0f0, 0x21796ad4, 0x811bea82);
    Turn(block, 35, 0x21796ad4, 0x2c0ebc11, 0x811bea82, 0xcee1174c, 0xc499ed01, 0x16263bc6, 0xdcbbb0cb, 0x4b03af04);
    Turn(block, 36, 0xdcbbb0cb, 0x21796ad4, 0x4b03af04, 0x811bea82, 0xcee1174c, 0x4ebed41e, 0x0f511fd8, 0x085e5ab5);
    Turn(block, 37, 0x0f511fd8, 0xdcbbb0cb, 0x085e5ab5, 0x4b03af04, 0x811bea82, 0x626380a1, 0xdc63973f, 0xf72eec32);
    Turn(block, 38, 0xdc63973f, 0x0f511fd8, 0xf72eec32, 0x085e5ab5, 0x4b03af04, 0x16263806, 0x4c986405, 0x03d447f6);
    Turn(block, 39, 0x4c986405, 0xdc63973f, 0x03d447f6, 0xf72eec32, 0x085e5ab5, 0x000018c0, 0x32de1cba, 0xf718e5cf);
  }

  lemma Rounds40(block: seq<bv32>)
    requires |block| == 16
    requires Rounds(WORDS, SHA1.initial, block, 40) == Hash(0x32de1cba, 0x4c986405, 0xf718e5cf, 0x03d447f6, 0xf72eec32)
    requires Schedule(WORDS, block, 40) == 0xd2e138c4 && Schedule(WORDS, block, 41) == 0x00000f00
    requires Schedule(WORDS, block, 42) == 0x3afb5079 && Schedule(WORDS, block, 43) == 0x898e04e5
    requires Schedule(WORDS, block, 44) == 0xe2ba3c2b && Schedule(WORDS, block, 45) == 0x000060c0
    requires Schedule(WORDS, block, 46) == 0x053a37cd && Schedule(WORDS, block, 47) == 0x74458547
    requires Schedule(WORDS, block, 48) == 0xda9415ed && Schedule(WORDS, block, 49) == 0x26380a16
    requires Schedule(WORDS, block, 50) == 0x626383a1 && Schedule(WORDS, block, 51) == 0x4ebf54de
    requires Schedule(WORDS, block, 52) == 0x3835b44b && Schedule(WORDS, block, 53) == 0x0000f600
    requires Schedule(WORDS, block, 54) == 0x1e84c7a3 && Schedule(WORDS, block, 55) == 0x98e04d98
    requires Schedule(WORDS, block, 56) == 0x651d16a0 && Schedule(WORDS, block, 57) == 0x62658ca1
    requires Schedule(WORDS, block, 58) == 0x458544d6 && Schedule(WORDS, block, 59) == 0x44584cb7
    ensures Rounds(WORDS, SHA1.initial, block, 60) == Hash(0x3f52de5a, 0x09d785fd, 0x3498bfd4, 0xf211824f, 0xd79915ab)
  {
    Turn(block, 40, 0x32de1cba, 0x4c986405, 0xf718e5cf, 0x03d447f6, 0xf72eec32, 0xd2e138c4, 0xfc87dedf, 0x53261901);
    Turn(block, 41, 0xfc87dedf, 0x32de1cba, 0x53261901, 0xf718e5cf, 0x03d447f6, 0x00000f00, 0x970a0d5c, 0x8cb7872e);
    Turn(block, 42, 0x970a0d5c, 0xfc87dedf, 0x8cb7872e, 0x53261901, 0xf718e5cf, 0x3afb5079, 0x7f193dc5, 0xff21f7b7);
    Turn(block, 43, 0x7f193dc5, 0x970a0d5c, 0xff21f7b7, 0x8cb7872e, 0x53261901, 0x898e04e5, 0xee1b1aaf, 0x25c28357);
    Turn(block, 44, 0xee1b1aaf, 0x7f193dc5, 0x25c28357, 0xff21f7b7, 0x8cb7872e, 0xe2ba3c2b, 0x40f28e09, 0x5fc64f71);
    Turn(block, 45, 0x40f28e09, 0xee1b1aaf, 0x5fc64f71, 0x25c28357, 0xff21f7b7, 0x000060c0, 0x1c51e1f2, 0xfb86c6ab);
    Turn(block, 46, 0x1c51e1f2, 0x40f28e09, 0xfb86c6ab, 0x5fc64f71, 0x25c28357, 0x053a37cd, 0xa01b846c, 0x503ca382);
    Turn(block, 47, 0xa01b846c, 0x1c51e1f2, 0x503ca382, 0xfb86c6ab, 0x5fc64f71, 0x74458547, 0xbead02ca, 0x8714787c);
    Turn(block, 48, 0xbead02ca, 0xa01b846c, 0x8714787c, 0x503ca382, 0xfb86c6ab, 0xda9415ed, 0xbaf39337, 0x2806e11b);
    Turn(block, 49, 0xbaf39337, 0xbead02ca, 0x2806e11b, 0x8714787c, 0x503ca382, 0x26380a16, 0x120731c5, 0xafab40b2);
    Turn(block, 50, 0x120731c5, 0xbaf39337, 0xafab40b2, 0x2806e11b, 0x8714787c, 0x626383a1, 0x641db2ce, 0xeebce4cd);
    Turn(block, 51, 0x641db2ce, 0x120731c5, 0xeebce4cd, 0xafab40b2, 0x2806e11b, 0x4ebf54de, 0x3847ad66, 0x4481cc71);
    Turn(block, 52, 0x3847ad66, 0x641db2ce, 0x4481cc71, 0xeebce4cd, 0xafab40b2, 0x3835b44b, 0xe490436d, 0x99076cb3);
    Turn(block, 53, 0xe490436d, 0x3847ad66, 0x99076cb3, 0x4481cc71, 0xeebce4cd, 0x0000f600, 0x27e9f1d8, 0x8e11eb59);
    Turn(block, 54, 0x27e9f1d8, 0xe490436d, 0x8e11eb59, 0x99076cb3, 0x4481cc71, 0x1e84c7a3, 0x7b71f76d, 0x792410db);
    Turn(block, 55, 0x7b71f76d, 0x27e9f1d8, 0x792410db, 0x8e11eb59, 0x99076cb3, 0x98e04d98, 0x5e6456af, 0x09fa7c76);
    Turn(block, 56, 0x5e6456af, 0x7b71f76d, 0x09fa7c76, 0x792410db, 0x8e11eb59, 0x651d16a0, 0xc846093f, 0x5edc7ddb);
    Turn(block, 57, 0xc846093f, 0x5e6456af, 0x5edc7ddb, 0x09fa7c76, 0x792410db, 0x62658ca1, 0xd262ff50, 0xd79915ab);
    Turn(block, 58, 0xd262ff50, 0xc846093f, 0xd79915ab, 0x5edc7ddb, 0x09fa7c76, 0x458544d6, 0x09d785fd, 0xf211824f);
    Turn(block, 59, 0x09d785fd, 0xd262ff50, 0xf211824f, 0xd79915ab, 0x5edc7ddb, 0x44584cb7, 0x3f52de5a, 0x3498bfd4);
  }

  lemma Rounds60(block: seq<bv32>)
    requires |block| == 16
    requires Rounds(WORDS, SHA1.initial, block, 60) == Hash(0x3f52de5a, 0x09d785fd, 0x3498bfd4, 0xf211824f, 0xd79915ab)
    requires Schedule(WORDS, block, 60) == 0x7ba06619 && Schedule(WORDS, block, 61) == 0x6380aea2
    requires Schedule(WORDS, block, 62) == 0x0ae55269 && Schedule(WORDS, block, 63) == 0x627b49a1
    requires Schedule(WORDS, block, 64) == 0x7cd45c9d && Schedule(WORDS, block, 65) == 0x000f0000
    requires Schedule(WORDS, block, 66) == 0xfb50753a && Schedule(WORDS, block, 67) == 0xec6765e8
    requires Schedule(WORDS, block, 68) == 0xba3c2be2 && Schedule(WORDS, block, 69) == 0x0060c000
    requires Schedule(WORDS, block, 70) == 0x3a37cd05 && Schedule(WORDS, block, 71) == 0x458546f4
    requires Schedule(WORDS, block, 72) == 0xb8599dd6 && Schedule(WORDS, block, 73) == 0x380a1a26
    requires Schedule(WORDS, block, 74) == 0x01e02203 && Schedule(WORDS, block, 75) == 0xe7cc3456
    requires Schedule(WORDS, block, 76) == 0xe6e60b69 && Schedule(WORDS, block, 77) == 0x00f60a00
    requires Schedule(WORDS, block, 78) == 0x5795ef4f && Schedule(WORDS, block, 79) == 0x822e0879
    ensures Rounds(WORDS, SHA1.initial, block, 80) == Hash(0x42541b35, 0x5738d5e1, 0x21834873, 0x681e6df6, 0xd8fdf6ad)
  {
    Turn(block, 60, 0x3f52de5a, 0x09d785fd, 0x3498bfd4, 0xf211824f, 0xd79915ab, 0x7ba06619, 0xd756c147, 0x4275e17f);
    Turn(block, 61, 0xd756c147, 0x3f52de5a, 0x4275e17f, 0x3498bfd4, 0xf211824f, 0x6380aea2, 0x548c9cb2, 0x8fd4b796);
    Turn(block, 62, 0x548c9cb2, 0xd756c147, 0x8fd4b796, 0x4275e17f, 0x3498bfd4, 0x0ae55269, 0xb66c020b, 0xf5d5b051);
    Turn(block, 63, 0xb66c020b, 0x548c9cb2, 0xf5d5b051, 0x8fd4b796, 0x4275e17f, 0x627b49a1, 0x6b61c9e1, 0x9523272c);
    Turn(block, 64, 0x6b61c9e1, 0xb66c020b, 0x9523272c, 0xf5d5b051, 0x8fd4b796, 0x7cd45c9d, 0x19dfa7ac, 0xed9b0082);
    Turn(block, 65, 0x19dfa7ac, 0x6b61c9e1, 0xed9b0082, 0x9523272c, 0xf5d5b051, 0x000f0000, 0x101655f9, 0x5ad87278);
    Turn(block, 66, 0x101655f9, 0x19dfa7ac, 0x5ad87278, 0xed9b0082, 0x9523272c, 0xfb50753a, 0x0c3df2b4, 0x0677e9eb);
    Turn(block, 67, 0x0c3df2b4, 0x101655f9, 0x0677e9eb, 0x5ad87278, 0xed9b0082, 0xec6765e8, 0x78dd4d2b, 0x4405957e);
    Turn(block, 68, 0x78dd4d2b, 0x0c3df2b4, 0x4405957e, 0x0677e9eb, 0x5ad87278, 0xba3c2be2, 0x497093c0, 0x030f7cad);
    Turn(block, 69, 0x497093c0, 0x78dd4d2b, 0x030f7cad, 0x4405957e, 0x0677e9eb, 0x0060c000, 0x3f2588c2, 0xde37534a);
    Turn(block, 70, 0x3f2588c2, 0x497093c0, 0xde37534a, 0x030f7cad, 0x4405957e, 0x3a37cd05, 0xc199f8c7, 0x125c24f0);
    Turn(block, 71, 0xc199f8c7, 0x3f2588c2, 0x125c24f0, 0xde37534a, 0x030f7cad, 0x458546f4, 0x39859de7, 0x8fc96230);
    Turn(block, 72, 0x39859de7, 0xc199f8c7, 0x8fc96230, 0x125c24f0, 0xde37534a, 0xb8599dd6, 0xedb42de4, 0xf0667e31);
    Turn(block, 73, 0xedb42de4, 0x39859de7, 0xf0667e31, 0x8fc96230, 0x125c24f0, 0x380a1a26, 0x11793f6f, 0xce616779);
    Turn(block, 74, 0x11793f6f, 0xedb42de4, 0xce616779, 0xf0667e31, 0x8fc96230, 0x01e02203, 0x5ee76897, 0x3b6d0b79);
    Turn(block, 75, 0x5ee76897, 0x11793f6f, 0x3b6d0b79, 0xce616779, 0xf0667e31, 0xe7cc3456, 0x63f7dab7, 0xc45e4fdb);
    Turn(block, 76, 0x63f7dab7, 0x5ee76897, 0xc45e4fdb, 0x3b6d0b79, 0xce616779, 0xe6e60b69, 0xa079b7d9, 0xd7b9da25);
    Turn(block, 77, 0xa079b7d9, 0x63f7dab7, 0xd7b9da25, 0xc45e4fdb, 0x3b6d0b79, 0x00f60a00, 0x860d21cc, 0xd8fdf6ad);
    Turn(block, 78, 0x860d21cc, 0xa079b7d9, 0xd8fdf6ad, 0xd7b9da25, 0xc45e4fdb, 0x5795ef4f, 0x5738d5e1, 0x681e6df6);
    Turn(block, 79, 0x5738d5e1, 0x860d21cc, 0x681e6df6, 0xd8fdf6ad, 0xd7b9da25, 0x822e0879, 0x42541b35, 0x21834873);
  }

  const ABC: seq<byte> := [0x61, 0x62, 0x63]

  lemma PaddedAbc()
    ensures |Padded(ABC)| == 64
    ensures Padded(ABC)[..4] == [0x61, 0x62, 0x63, 0x80]
    ensures forall i :: 4 <= i < 63 ==> Padded(ABC)[i] == 0
    ensures Padded(ABC)[63] == 24
  {
    assert (55 - 3) % 64 == 52;
    assert Be64(24) == [0, 0, 0, 0, 0, 0, 0, 24];
  }

  lemma LoadWord(data: seq<byte>, i: nat, a: byte, b: byte, c: byte, d: byte)
    requires |data| == 64 && i < 16
    requires data[4 * i] == a && data[4 * i + 1] == b && data[4 * i + 2] == c && data[4 * i + 3] == d
    ensures BlockOf(SHA1, data)[i] == Load(a, b, c, d)
  {
  }

  predicate AbcBlock(block: seq<bv32>) {
    |block| == 16 && block[0] == 0x61626380 && block[15] == 0x18 && forall i :: 1 <= i < 15 ==> block[i] == 0
  }

  lemma BlockIs(data: seq<byte>)
    requires |data| == 64 && data[0] == 0x61 && data[1] == 0x62 && data[2] == 0x63 && data[3] == 0x80 && data[63] == 24
    requires forall i :: 4 <= i < 63 ==> data[i] == 0
    ensures AbcBlock(BlockOf(SHA1, data))
  {
    LoadWord(data, 0, 0x61, 0x62, 0x63, 0x80);
    LoadWord(data, 15, 0, 0, 0, 24);
    forall i | 1 <= i < 15 ensures BlockOf(SHA1, data)[i] == 0 { LoadWord(data, i, 0, 0, 0, 0); }
  }

  lemma FirstWords(block: seq<bv32>)
    requires AbcBlock(block)
    ensures Schedule(WORDS, block, 0) == 0x61626380 && Schedule(WORDS, block, 1) == 0x00000000
    ensures Schedule(WORDS, block, 2) == 0x00000000 && Schedule(WORDS, block, 3) == 0x00000000
    ensures Schedule(WORDS, block, 4) == 0x00000000 && Schedule(WORDS, block, 5) == 0x00000000
    ensures Schedule(WORDS, block, 6) == 0x00000000 && Schedule(WORDS, block, 7) == 0x00000000
    ensures Schedule(WORDS, block, 8) == 0x00000000 && Schedule(WORDS, block, 9) == 0x00000000
    ensures Schedule(WORDS, block, 10) == 0x00000000 && Schedule(WORDS, block, 11) == 0x00000000
    ensures Schedule(WORDS, block, 12) == 0x00000000 && Schedule(WORDS, block, 13) == 0x00000000
    ensures Schedule(WORDS, block, 14) == 0x00000000 && Schedule(WORDS, block, 15) == 0x00000018
  {
  }

  lemma AllRounds(block: seq<bv32>)
    requires AbcBlock(block)
    ensures Rounds(WORDS, SHA1.initial, block, 80) == Hash(0x42541b35, 0x5738d5e1, 0x21834873, 0x681e6df6, 0xd8fdf6ad)
  {
    FirstWords(block);
    Words16(block);
    Words32(block);
    Words48(block);
    Words64(block);
    Rounds0(block);
    Rounds20(block);
    Rounds40(block);
    Rounds60(block);
  }

  lemma CompressAbc(block: seq<bv32>)
    requires AbcBlock(block)
    ensures Compress(WORDS, SHA1.initial, block) == Hash(0xa9993e36, 0x4706816a, 0xba3e2571, 0x7850c26c, 0x9cd0d89d)
  {
    AllRounds(block);
  }

  lemma OneBlock(data: seq<byte>, h: Hash<bv32>)
    requires |data| == 64 && Compress(WORDS, SHA1.initial, BlockOf(SHA1, data)) == h
    ensures Absorbed(SHA1, data) == h
  {
    assert data[64 * 0..64 * 1] == data;
    assert FoldBlocks(Absorb(SHA1), SHA1.initial, data, 1) == Absorb(SHA1)(SHA1.initial, data);
  }

  lemma StoreAbc(h: Hash<bv32>)
    requires h == Hash(0xa9993e36, 0x4706816a, 0xba3e2571, 0x7850c26c, 0x9cd0d89d)
    ensures Store(h.a) == [0xa9, 0x99, 0x3e, 0x36]
    ensures Store(h.b) == [0x47, 0x06, 0x81, 0x6a]
    ensures Store(h.c) == [0xba, 0x3e, 0x25, 0x71]
    ensures Store(h.d) == [0x78, 0x50, 0xc2, 0x6c]
    ensures Store(h.e) == [0x9c, 0xd0, 0xd8, 0x9d]
  {
  }

  lemma AbsorbedAbc(h: Hash<bv32>)
    requires h == Hash(0xa9993e36, 0x4706816a, 0xba3e2571, 0x7850c26c, 0x9cd0d89d)
    ensures Absorbed(SHA1, Padded(ABC)) == h
  {
    var data := Padded(ABC);
    PaddedAbc();
    assert data[0] == data[..4][0] && data[1] == data[..4][1] && data[2] == data[..4][2] && data[3] == data[..4][3];
    BlockIs(data);
    CompressAbc(BlockOf(SHA1, data));
    OneBlock(data, h);
  }

  /** SHA-1("abc") = a9993e36 4706816a ba3e2571 7850c26c 9cd0d89d. */
  lemma AbcDigest()
    ensures Sha1Spec.Digest(SHA1, ABC) ==
      [0xa9, 0x99, 0x3e, 0x36] + [0x47, 0x06, 0x81, 0x6a] + [0xba, 0x3e, 0x25, 0x71] +
      [0x78, 0x50, 0xc2, 0x6c] + [0x9c, 0xd0, 0xd8, 0x9d]
  {
    var h := Hash(0xa9993e36, 0x4706816a, 0xba3e2571, 0x7850c26c, 0x9cd0d89d);
    AbsorbedAbc(h);
    StoreAbc(h);
  }
}
