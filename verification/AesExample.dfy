/** The example of FIPS 197, appendix C.1: one key, one block, all rounds. */
module AesExample {
  import opened AesField
  import opened AesSpec

  const Key: seq<bv8> :=
    [0x00, 0x01, 0x02, 0x03, 0x04, 0x05, 0x06, 0x07,
     0x08, 0x09, 0x0a, 0x0b, 0x0c, 0x0d, 0x0e, 0x0f]
  const Plain: Block := Block(0x00112233, 0x44556677, 0x8899aabb, 0xccddeeff)
  const Encrypted: Block := Block(0x69c4e0d8, 0x6a7b0430, 0xd8cdb780, 0x70b4c55a)

  // The round keys.
  const K0 := Block(0x00010203, 0x04050607, 0x08090a0b, 0x0c0d0e0f)
  const K1 := Block(0xd6aa74fd, 0xd2af72fa, 0xdaa678f1, 0xd6ab76fe)
  const K2 := Block(0xb692cf0b, 0x643dbdf1, 0xbe9bc500, 0x6830b3fe)
  const K3 := Block(0xb6ff744e, 0xd2c2c9bf, 0x6c590cbf, 0x0469bf41)
  const K4 := Block(0x47f7f7bc, 0x95353e03, 0xf96c32bc, 0xfd058dfd)
  const K5 := Block(0x3caaa3e8, 0xa99f9deb, 0x50f3af57, 0xadf622aa)
  const K6 := Block(0x5e390f7d, 0xf7a69296, 0xa7553dc1, 0x0aa31f6b)
  const K7 := Block(0x14f9701a, 0xe35fe28c, 0x440adf4d, 0x4ea9c026)
  const K8 := Block(0x47438735, 0xa41c65b9, 0xe016baf4, 0xaebf7ad2)
  const K9 := Block(0x549932d1, 0xf0855768, 0x1093ed9c, 0xbe2c974e)
  const K10 := Block(0x13111d7f, 0xe3944a17, 0xf307a78b, 0x4d2b30c5)

  // The states after each round, and after the next substitution.
  const S0 := Block(0x00102030, 0x40506070, 0x8090a0b0, 0xc0d0e0f0)
  const T0 := Block(0x63cab704, 0x0953d051, 0xcd60e0e7, 0xba70e18c)
  const S1 := Block(0x89d810e8, 0x855ace68, 0x2d1843d8, 0xcb128fe4)
  const T1 := Block(0xa761ca9b, 0x97be8b45, 0xd8ad1a61, 0x1fc97369)
  const S2 := Block(0x4915598f, 0x55e5d7a0, 0xdaca94fa, 0x1f0a63f7)
  const T2 := Block(0x3b59cb73, 0xfcd90ee0, 0x5774222d, 0xc067fb68)
  const S3 := Block(0xfa636a28, 0x25b339c9, 0x40668a31, 0x57244d17)
  const T3 := Block(0x2dfb0234, 0x3f6d12dd, 0x09337ec7, 0x5b36e3f0)
  const S4 := Block(0x24724023, 0x6966b3fa, 0x6ed27532, 0x88425b6c)
  const T4 := Block(0x36400926, 0xf9336d2d, 0x9fb59d23, 0xc42c3950)
  const S5 := Block(0xc81677bc, 0x9b7ac93b, 0x25027992, 0xb0261996)
  const T5 := Block(0xe847f565, 0x14dadde2, 0x3f77b64f, 0xe7f7d490)
  const S6 := Block(0xc62fe109, 0xf75eedc3, 0xcc79395d, 0x84f9cf5d)
  const T6 := Block(0xb415f801, 0x6858552e, 0x4bb6124c, 0x5f998a4c)
  const S7 := Block(0xd1876c0f, 0x79c4300a, 0xb45594ad, 0xd66ff41f)
  const T7 := Block(0x3e175076, 0xb61c0467, 0x8dfc2295, 0xf6a8bfc0)
  const S8 := Block(0xfde3bad2, 0x05e5d0d7, 0x3547964e, 0xf1fe37f1)
  const T8 := Block(0x5411f4b5, 0x6bd9700e, 0x96a0902f, 0xa1bb9aa1)
  const S9 := Block(0xbd6e7c3d, 0xf2b5779e, 0x0b61216e, 0x8b10b689)
  const T9 := Block(0x7a9f1027, 0x89d5f50b, 0x2beffd9f, 0x3dca4ea7)

  /** The next round key, from the last. */
  function NextKey(k: Block, power: bv8): Block {
    var c0 := Xor32(k.c0, Xor32(SubWord(RotWord(k.c3)), Pack(power, 0, 0, 0)));
    var c1 := Xor32(k.c1, c0);
    var c2 := Xor32(k.c2, c1);
    Block(c0, c1, c2, Xor32(k.c3, c2))
  }

  lemma FourthWord(key: seq<bv8>, i: nat)
    requires |key| == 16 && i >= 4 && i % 4 == 0
    ensures KeyWord(key, i)
         == Xor32(KeyWord(key, i - 4), Xor32(SubWord(RotWord(KeyWord(key, i - 1))), Pack(RconByte(i / 4), 0, 0, 0)))
  {
    hide Xor32, SubWord, RotWord, Pack, RconByte;
  }

  lemma OtherWord(key: seq<bv8>, i: nat)
    requires |key| == 16 && i >= 4 && i % 4 != 0
    ensures KeyWord(key, i) == Xor32(KeyWord(key, i - 4), KeyWord(key, i - 1))
  {
    hide Xor32, SubWord, RotWord, Pack, RconByte;
  }

  lemma RoundKeyIs(key: seq<bv8>, r: nat)
    requires |key| == 16 && r >= 1
    ensures RoundKey(key, r) == NextKey(RoundKey(key, r - 1), RconByte(r))
  {
    hide KeyWord, Xor32, SubWord, RotWord, Pack, RconByte;
    var i := 4 * r;
    assert i % 4 == 0 && i / 4 == r && 4 * (r - 1) == i - 4;
    FourthWord(key, i);
    OtherWord(key, i + 1);
    OtherWord(key, i + 2);
    OtherWord(key, i + 3);
  }

  lemma Powers()
    ensures RconByte(1) == 0x01 && RconByte(2) == 0x02 && RconByte(3) == 0x04 && RconByte(4) == 0x08
    ensures RconByte(5) == 0x10 && RconByte(6) == 0x20 && RconByte(7) == 0x40 && RconByte(8) == 0x80
    ensures RconByte(9) == 0x1b && RconByte(10) == 0x36
  {
  }

  /** Key and state after a round. */
  predicate Is(key: seq<bv8>, input: Block, r: nat, k: Block, s: Block)
    requires |key| == 16
  {
    RoundKey(key, r) == k && EncRounds(key, input, r) == s
  }

  lemma First(key: seq<bv8>, input: Block)
    requires |key| == 16
    ensures var k := Block(Pack(key[0], key[1], key[2], key[3]), Pack(key[4], key[5], key[6], key[7]),
                           Pack(key[8], key[9], key[10], key[11]), Pack(key[12], key[13], key[14], key[15]));
      Is(key, input, 0, k, AddRoundKey(input, k))
  {
    hide Pack, AddRoundKey;
  }

  lemma FirstKey()
    ensures K0 == Block(Pack(0x00, 0x01, 0x02, 0x03), Pack(0x04, 0x05, 0x06, 0x07),
                        Pack(0x08, 0x09, 0x0a, 0x0b), Pack(0x0c, 0x0d, 0x0e, 0x0f))
    ensures AddRoundKey(Plain, K0) == S0
  {
  }

  /** One round, from what it computes. */
  lemma Next(key: seq<bv8>, input: Block, r: nat, k: Block, s: Block, t: Block, k': Block, s': Block)
    requires |key| == 16 && 1 <= r <= 10 && Is(key, input, r - 1, k, s) && NextKey(k, RconByte(r)) == k'
    requires SubBytes(s) == t && AddRoundKey(MixColumns(ShiftRows(t)), k') == s'
    ensures Is(key, input, r, k', s')
  {
    RoundKeyIs(key, r);
    hide NextKey, RconByte, RoundKey, SubBytes, ShiftRows, MixColumns, AddRoundKey;
  }

  lemma Last(key: seq<bv8>, input: Block, k: Block, s: Block, t: Block, k': Block, c: Block)
    requires |key| == 16 && Is(key, input, 9, k, s) && NextKey(k, RconByte(10)) == k'
    requires SubBytes(s) == t && AddRoundKey(ShiftRows(t), k') == c
    ensures Cipher(key, input) == c
  {
    RoundKeyIs(key, 10);
    hide NextKey, RconByte, RoundKey, SubBytes, ShiftRows, AddRoundKey, EncRounds;
  }

  lemma Key1()
    ensures NextKey(K0, 0x01) == K1
  {
  }

  lemma Key2()
    ensures NextKey(K1, 0x02) == K2
  {
  }

  lemma Key3()
    ensures NextKey(K2, 0x04) == K3
  {
  }

  lemma Key4()
    ensures NextKey(K3, 0x08) == K4
  {
  }

  lemma Key5()
    ensures NextKey(K4, 0x10) == K5
  {
  }

  lemma Key6()
    ensures NextKey(K5, 0x20) == K6
  {
  }

  lemma Key7()
    ensures NextKey(K6, 0x40) == K7
  {
  }

  lemma Key8()
    ensures NextKey(K7, 0x80) == K8
  {
  }

  lemma Key9()
    ensures NextKey(K8, 0x1b) == K9
  {
  }

  lemma Key10()
    ensures NextKey(K9, 0x36) == K10
  {
  }

  lemma Substituted0()
    ensures SubBytes(S0) == T0
  {
  }

  lemma Substituted1()
    ensures SubBytes(S1) == T1
  {
  }

  lemma Substituted2()
    ensures SubBytes(S2) == T2
  {
  }

  lemma Substituted3()
    ensures SubBytes(S3) == T3
  {
  }

  lemma Substituted4()
    ensures SubBytes(S4) == T4
  {
  }

  lemma Substituted5()
    ensures SubBytes(S5) == T5
  {
  }

  lemma Substituted6()
    ensures SubBytes(S6) == T6
  {
  }

  lemma Substituted7()
    ensures SubBytes(S7) == T7
  {
  }

  lemma Substituted8()
    ensures SubBytes(S8) == T8
  {
  }

  lemma Substituted9()
    ensures SubBytes(S9) == T9
  {
  }

  lemma Mixed1()
    ensures AddRoundKey(MixColumns(ShiftRows(T0)), K1) == S1
  {
  }

  lemma Mixed2()
    ensures AddRoundKey(MixColumns(ShiftRows(T1)), K2) == S2
  {
  }

  lemma Mixed3()
    ensures AddRoundKey(MixColumns(ShiftRows(T2)), K3) == S3
  {
  }

  lemma Mixed4()
    ensures AddRoundKey(MixColumns(ShiftRows(T3)), K4) == S4
  {
  }

  lemma Mixed5()
    ensures AddRoundKey(MixColumns(ShiftRows(T4)), K5) == S5
  {
  }

  lemma Mixed6()
    ensures AddRoundKey(MixColumns(ShiftRows(T5)), K6) == S6
  {
  }

  lemma Mixed7()
    ensures AddRoundKey(MixColumns(ShiftRows(T6)), K7) == S7
  {
  }

  lemma Mixed8()
    ensures AddRoundKey(MixColumns(ShiftRows(T7)), K8) == S8
  {
  }

  lemma Mixed9()
    ensures AddRoundKey(MixColumns(ShiftRows(T8)), K9) == S9
  {
  }

  lemma LastMixed()
    ensures AddRoundKey(ShiftRows(T9), K10) == Encrypted
  {
  }

  lemma Round0(key: seq<bv8>)
    requires key == Key
    ensures |key| == 16 && Is(key, Plain, 0, K0, S0)
  {
    First(key, Plain);
    FirstKey();
    hide Is, AddRoundKey, Plain, S0, Pack, K0;
  }

  lemma Round1(key: seq<bv8>)
    requires |key| == 16 && Is(key, Plain, 0, K0, S0)
    ensures Is(key, Plain, 1, K1, S1)
  {
    hide *;
    Powers();
    Key1();
    Substituted0();
    Mixed1();
    Next(key, Plain, 1, K0, S0, T0, K1, S1);
  }

  lemma Round2(key: seq<bv8>)
    requires |key| == 16 && Is(key, Plain, 1, K1, S1)
    ensures Is(key, Plain, 2, K2, S2)
  {
    hide *;
    Powers();
    Key2();
    Substituted1();
    Mixed2();
    Next(key, Plain, 2, K1, S1, T1, K2, S2);
  }

  lemma Round3(key: seq<bv8>)
    requires |key| == 16 && Is(key, Plain, 2, K2, S2)
    ensures Is(key, Plain, 3, K3, S3)
  {
    hide *;
    Powers();
    Key3();
    Substituted2();
    Mixed3();
    Next(key, Plain, 3, K2, S2, T2, K3, S3);
  }

  lemma Round4(key: seq<bv8>)
    requires |key| == 16 && Is(key, Plain, 3, K3, S3)
    ensures Is(key, Plain, 4, K4, S4)
  {
    hide *;
    Powers();
    Key4();
    Substituted3();
    Mixed4();
    Next(key, Plain, 4, K3, S3, T3, K4, S4);
  }

  lemma Round5(key: seq<bv8>)
    requires |key| == 16 && Is(key, Plain, 4, K4, S4)
    ensures Is(key, Plain, 5, K5, S5)
  {
    hide *;
    Powers();
    Key5();
    Substituted4();
    Mixed5();
    Next(key, Plain, 5, K4, S4, T4, K5, S5);
  }

  lemma Round6(key: seq<bv8>)
    requires |key| == 16 && Is(key, Plain, 5, K5, S5)
    ensures Is(key, Plain, 6, K6, S6)
  {
    hide *;
    Powers();
    Key6();
    Substituted5();
    Mixed6();
    Next(key, Plain, 6, K5, S5, T5, K6, S6);
  }

  lemma Round7(key: seq<bv8>)
    requires |key| == 16 && Is(key, Plain, 6, K6, S6)
    ensures Is(key, Plain, 7, K7, S7)
  {
    hide *;
    Powers();
    Key7();
    Substituted6();
    Mixed7();
    Next(key, Plain, 7, K6, S6, T6, K7, S7);
  }

  lemma Round8(key: seq<bv8>)
    requires |key| == 16 && Is(key, Plain, 7, K7, S7)
    ensures Is(key, Plain, 8, K8, S8)
  {
    hide *;
    Powers();
    Key8();
    Substituted7();
    Mixed8();
    Next(key, Plain, 8, K7, S7, T7, K8, S8);
  }

  lemma Round9(key: seq<bv8>)
    requires |key| == 16 && Is(key, Plain, 8, K8, S8)
    ensures Is(key, Plain, 9, K9, S9)
  {
    hide *;
    Powers();
    Key9();
    Substituted8();
    Mixed9();
    Next(key, Plain, 9, K8, S8, T8, K9, S9);
  }

  /** The cipher gives the published result. */
  lemma PublishedResult(key: seq<bv8>)
    requires key == Key
    ensures Cipher(key, Plain) == Encrypted
  {
    Round0(key);
    hide *;
    Round1(key);
    Round2(key);
    Round3(key);
    Round4(key);
    Round5(key);
    Round6(key);
    Round7(key);
    Round8(key);
    Round9(key);
    Powers();
    Key10();
    Substituted9();
    LastMixed();
    Last(key, Plain, K9, S9, T9, K10, Encrypted);
  }
}
