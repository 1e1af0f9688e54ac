/** The table-driven AES-128 implementation, proved against FIPS 197. */
module Aes {
  import opened AesTables
  import opened AesField
  import opened AesSpec

  // ----- the table macros -----

  function Rotr8(w: bv32): bv32 { (w >> 8) | (w << 24) }
  function Rotr16(w: bv32): bv32 { (w >> 16) | (w << 16) }
  function Rotr24(w: bv32): bv32 { (w >> 24) | (w << 8) }

  /** One column of a full encryption round. */
  function EncColumn(w: bv32, x: bv32, y: bv32, z: bv32, k: bv32): bv32 {
    Xor32(Xor32(Xor32(Xor32(Te0(B0(w)), Rotr8(Te0(B1(x)))), Rotr16(Te0(B2(y)))), Rotr24(Te0(B3(z)))), k)
  }

  /** One column of a full decryption round. */
  function DecColumn(w: bv32, x: bv32, y: bv32, z: bv32, k: bv32): bv32 {
    Xor32(Xor32(Xor32(Xor32(Td0(B0(w)), Rotr8(Td0(B1(x)))), Rotr16(Td0(B2(y)))), Rotr24(Td0(B3(z)))), k)
  }

  /** The substitute of x in each of the four byte positions, out of one table entry. */
  function Te41(x: bv8): bv32 { (Te0(x) << 8) & 0xff000000 }
  function Te42(x: bv8): bv32 { Te0(x) & 0x00ff0000 }
  function Te43(x: bv8): bv32 { Te0(x) & 0x0000ff00 }
  function Te44(x: bv8): bv32 { (Te0(x) >> 8) & 0x000000ff }
  function Te4(x: bv8): bv8 { ((Te0(x) >> 8) & 0xff) as bv8 }

  function Td41(x: bv8): bv32 { (Td4s(x) as bv32) << 24 }
  function Td42(x: bv8): bv32 { (Td4s(x) as bv32) << 16 }
  function Td43(x: bv8): bv32 { (Td4s(x) as bv32) << 8 }
  function Td44(x: bv8): bv32 { Td4s(x) as bv32 }

  function LastEncColumn(w: bv32, x: bv32, y: bv32, z: bv32, k: bv32): bv32 {
    Xor32(Xor32(Xor32(Xor32(Te41(B0(w)), Te42(B1(x))), Te43(B2(y))), Te44(B3(z))), k)
  }

  function LastDecColumn(w: bv32, x: bv32, y: bv32, z: bv32, k: bv32): bv32 {
    Xor32(Xor32(Xor32(Xor32(Td41(B0(w)), Td42(B1(x))), Td43(B2(y))), Td44(B3(z))), k)
  }

  /** The word that follows `temp` four places after `first` in the key schedule. */
  function NextKeyWord(first: bv32, temp: bv32, i: nat): bv32
    requires i < 10
  {
    Xor32(Xor32(Xor32(Xor32(Xor32(first, Te41(B1(temp))), Te42(B2(temp))), Te43(B3(temp))), Te44(B0(temp))),
          (Rcons(i) as bv32) << 24)
  }

  /** A round key word for decryption. */
  function DecKeyWord(w: bv32): bv32 {
    Xor32(Xor32(Xor32(Td0(Te4(B0(w))), Rotr8(Td0(Te4(B1(w))))), Rotr16(Td0(Te4(B2(w))))), Rotr24(Td0(Te4(B3(w)))))
  }

  // ----- the macros compute what FIPS 197 defines -----

  lemma Rotate8(a: bv8, b: bv8, c: bv8, d: bv8)
    ensures Rotr8(Pack(a, b, c, d)) == Pack(d, a, b, c)
  {}

  lemma Rotate16(a: bv8, b: bv8, c: bv8, d: bv8)
    ensures Rotr16(Pack(a, b, c, d)) == Pack(c, d, a, b)
  {}

  lemma Rotate24(a: bv8, b: bv8, c: bv8, d: bv8)
    ensures Rotr24(Pack(a, b, c, d)) == Pack(b, c, d, a)
  {}

  lemma SumOfPacks(a0: bv8, a1: bv8, a2: bv8, a3: bv8, b0: bv8, b1: bv8, b2: bv8, b3: bv8,
                   c0: bv8, c1: bv8, c2: bv8, c3: bv8, d0: bv8, d1: bv8, d2: bv8, d3: bv8)
    ensures Xor32(Xor32(Xor32(Pack(a0, a1, a2, a3), Pack(b0, b1, b2, b3)), Pack(c0, c1, c2, c3)), Pack(d0, d1, d2, d3))
            == Pack(Sum4(a0, b0, c0, d0), Sum4(a1, b1, c1, d1), Sum4(a2, b2, c2, d2), Sum4(a3, b3, c3, d3))
  {
    hide Pack, Xor8, Xor32;
    PackLinear(a0, a1, a2, a3, b0, b1, b2, b3);
    PackLinear(Xor8(a0, b0), Xor8(a1, b1), Xor8(a2, b2), Xor8(a3, b3), c0, c1, c2, c3);
    PackLinear(Xor8(Xor8(a0, b0), c0), Xor8(Xor8(a1, b1), c1), Xor8(Xor8(a2, b2), c2), Xor8(Xor8(a3, b3), c3),
               d0, d1, d2, d3);
    XorAssociates(Xor8(a0, b0), c0, d0);
    XorAssociates(Xor8(a1, b1), c1, d1);
    XorAssociates(Xor8(a2, b2), c2, d2);
    XorAssociates(Xor8(a3, b3), c3, d3);
  }

  /** Moving the first summand to the end. */
  lemma RotateSum(a: bv8, b: bv8, c: bv8, d: bv8)
    ensures Sum4(a, b, c, d) == Sum4(b, c, d, a)
  {
    hide Xor8;
    XorCommutes(a, b);
    XorAssociates(b, a, Xor8(c, d));
    XorCommutes(a, Xor8(c, d));
    XorAssociates(c, d, a);
    XorAssociates(b, c, Xor8(d, a));
  }

  lemma EncTableSum(p: bv8, q: bv8, r: bv8, s: bv8)
    ensures Xor32(Xor32(Xor32(Pack(XTime(p), p, p, Times3(p)), Pack(Times3(q), XTime(q), q, q)),
                        Pack(r, Times3(r), XTime(r), r)), Pack(s, s, Times3(s), XTime(s)))
            == MixBytes(p, q, r, s)
  {
    hide Pack, Xor32, Sum4, XTime, Times3;
    SumOfPacks(XTime(p), p, p, Times3(p), Times3(q), XTime(q), q, q,
               r, Times3(r), XTime(r), r, s, s, Times3(s), XTime(s));
    RotateSum(p, XTime(q), Times3(r), s);
    RotateSum(p, q, XTime(r), Times3(s));
    RotateSum(q, XTime(r), Times3(s), p);
    RotateSum(Times3(p), q, r, XTime(s));
    RotateSum(q, r, XTime(s), Times3(p));
    RotateSum(r, XTime(s), Times3(p), q);
  }

  lemma DecTableSum(p: bv8, q: bv8, r: bv8, s: bv8)
    ensures Xor32(Xor32(Xor32(Pack(TimesE(p), Times9(p), TimesD(p), TimesB(p)),
                              Pack(TimesB(q), TimesE(q), Times9(q), TimesD(q))),
                        Pack(TimesD(r), TimesB(r), TimesE(r), Times9(r))),
                  Pack(Times9(s), TimesD(s), TimesB(s), TimesE(s)))
            == InvMixBytes(p, q, r, s)
  {
    hide Pack, Xor32, Sum4, Times9, TimesB, TimesD, TimesE;
    SumOfPacks(TimesE(p), Times9(p), TimesD(p), TimesB(p), TimesB(q), TimesE(q), Times9(q), TimesD(q),
               TimesD(r), TimesB(r), TimesE(r), Times9(r), Times9(s), TimesD(s), TimesB(s), TimesE(s));
    RotateSum(Times9(p), TimesE(q), TimesB(r), TimesD(s));
    RotateSum(TimesD(p), Times9(q), TimesE(r), TimesB(s));
    RotateSum(Times9(q), TimesE(r), TimesB(s), TimesD(p));
    RotateSum(TimesB(p), TimesD(q), Times9(r), TimesE(s));
    RotateSum(TimesD(q), Times9(r), TimesE(s), TimesB(p));
    RotateSum(Times9(r), TimesE(s), TimesB(p), TimesD(q));
  }

  lemma EncColumnIsMix(w: bv32, x: bv32, y: bv32, z: bv32, k: bv32)
    ensures EncColumn(w, x, y, z, k)
            == Xor32(MixBytes(SubByte(B0(w)), SubByte(B1(x)), SubByte(B2(y)), SubByte(B3(z))), k)
  {
    hide Te0, SubByte, MixBytes, Pack, Xor32, Rotr8, Rotr16, Rotr24, XTime, Times3, B0, B1, B2, B3;
    Te0Entry(B0(w));
    Te0Entry(B1(x));
    Te0Entry(B2(y));
    Te0Entry(B3(z));
    var p, q, r, s := SubByte(B0(w)), SubByte(B1(x)), SubByte(B2(y)), SubByte(B3(z));
    Rotate8(XTime(q), q, q, Times3(q));
    Rotate16(XTime(r), r, r, Times3(r));
    Rotate24(XTime(s), s, s, Times3(s));
    EncTableSum(p, q, r, s);
  }

  lemma DecColumnIsInvMix(w: bv32, x: bv32, y: bv32, z: bv32, k: bv32)
    ensures DecColumn(w, x, y, z, k)
            == Xor32(InvMixBytes(InvSubByte(B0(w)), InvSubByte(B1(x)), InvSubByte(B2(y)), InvSubByte(B3(z))), k)
  {
    hide Td0, InvSubByte, InvMixBytes, Pack, Xor32, Rotr8, Rotr16, Rotr24, B0, B1, B2, B3;
    hide Times9, TimesB, TimesD, TimesE;
    Td0Entry(B0(w));
    Td0Entry(B1(x));
    Td0Entry(B2(y));
    Td0Entry(B3(z));
    var p, q, r, s := InvSubByte(B0(w)), InvSubByte(B1(x)), InvSubByte(B2(y)), InvSubByte(B3(z));
    Rotate8(TimesE(q), Times9(q), TimesD(q), TimesB(q));
    Rotate16(TimesE(r), Times9(r), TimesD(r), TimesB(r));
    Rotate24(TimesE(s), Times9(s), TimesD(s), TimesB(s));
    DecTableSum(p, q, r, s);
  }

  /** A byte of a packed word, masked out. */
  lemma MaskPack(a: bv8, b: bv8, c: bv8, d: bv8)
    ensures (Pack(a, b, c, d) << 8) & 0xff000000 == Pack(b, 0, 0, 0)
    ensures Pack(a, b, c, d) & 0x00ff0000 == Pack(0, b, 0, 0)
    ensures Pack(a, b, c, d) & 0x0000ff00 == Pack(0, 0, c, 0)
    ensures (Pack(a, b, c, d) >> 8) & 0x000000ff == Pack(0, 0, 0, c)
  {}

  lemma Te4Entries(x: bv8)
    ensures Te41(x) == Pack(SubByte(x), 0, 0, 0) && Te42(x) == Pack(0, SubByte(x), 0, 0)
    ensures Te43(x) == Pack(0, 0, SubByte(x), 0) && Te44(x) == Pack(0, 0, 0, SubByte(x))
  {
    hide Te0, SubByte, Pack, XTime, Times3;
    Te0Entry(x);
    MaskPack(XTime(SubByte(x)), SubByte(x), SubByte(x), Times3(SubByte(x)));
  }

  lemma ShiftedByte(b: bv8)
    ensures (b as bv32) << 24 == Pack(b, 0, 0, 0) && (b as bv32) << 16 == Pack(0, b, 0, 0)
    ensures (b as bv32) << 8 == Pack(0, 0, b, 0) && b as bv32 == Pack(0, 0, 0, b)
  {}

  lemma Td4Entries(x: bv8)
    ensures Td41(x) == Pack(InvSubByte(x), 0, 0, 0) && Td42(x) == Pack(0, InvSubByte(x), 0, 0)
    ensures Td43(x) == Pack(0, 0, InvSubByte(x), 0) && Td44(x) == Pack(0, 0, 0, InvSubByte(x))
  {
    hide Td4s, Pack;
    ShiftedByte(Td4s(x));
  }

  lemma FourBytes(a: bv8, b: bv8, c: bv8, d: bv8)
    ensures Xor32(Xor32(Xor32(Pack(a, 0, 0, 0), Pack(0, b, 0, 0)), Pack(0, 0, c, 0)), Pack(0, 0, 0, d))
         == Pack(a, b, c, d)
  {}

  lemma LastEncColumnIsSub(w: bv32, x: bv32, y: bv32, z: bv32, k: bv32)
    ensures LastEncColumn(w, x, y, z, k)
            == Xor32(Pack(SubByte(B0(w)), SubByte(B1(x)), SubByte(B2(y)), SubByte(B3(z))), k)
  {
    hide Te41, Te42, Te43, Te44, SubByte, Pack, Xor32, B0, B1, B2, B3;
    Te4Entries(B0(w));
    Te4Entries(B1(x));
    Te4Entries(B2(y));
    Te4Entries(B3(z));
    FourBytes(SubByte(B0(w)), SubByte(B1(x)), SubByte(B2(y)), SubByte(B3(z)));
  }

  lemma LastDecColumnIsInvSub(w: bv32, x: bv32, y: bv32, z: bv32, k: bv32)
    ensures LastDecColumn(w, x, y, z, k)
            == Xor32(Pack(InvSubByte(B0(w)), InvSubByte(B1(x)), InvSubByte(B2(y)), InvSubByte(B3(z))), k)
  {
    hide Td41, Td42, Td43, Td44, InvSubByte, Pack, Xor32, B0, B1, B2, B3;
    Td4Entries(B0(w));
    Td4Entries(B1(x));
    Td4Entries(B2(y));
    Td4Entries(B3(z));
    FourBytes(InvSubByte(B0(w)), InvSubByte(B1(x)), InvSubByte(B2(y)), InvSubByte(B3(z)));
  }

  /** The round constants in the table are the powers of x of section 5.2. */
  lemma RconsArePowers(i: nat)
    requires i < 10
    ensures Rcons(i) == RconByte(i + 1)
  {
    assert RconByte(1) == 0x01;
    assert RconByte(2) == 0x02;
    assert RconByte(3) == 0x04;
    assert RconByte(4) == 0x08;
    assert RconByte(5) == 0x10;
    assert RconByte(6) == 0x20;
    assert RconByte(7) == 0x40;
    assert RconByte(8) == 0x80;
    assert RconByte(9) == 0x1b;
    assert RconByte(10) == 0x36;
  }

  lemma Xor32Associates(u: bv32, v: bv32, w: bv32)
    ensures Xor32(Xor32(u, v), w) == Xor32(u, Xor32(v, w))
  {}

  lemma NextKeyWordIsExpansion(first: bv32, temp: bv32, i: nat)
    requires i < 10
    ensures NextKeyWord(first, temp, i) == Xor32(first, Xor32(SubWord(RotWord(temp)), Pack(RconByte(i + 1), 0, 0, 0)))
  {
    hide Te41, Te42, Te43, Te44, SubByte, Pack, Xor32, B0, B1, B2, B3, Rcons, RconByte;
    Te4Entries(B1(temp));
    Te4Entries(B2(temp));
    Te4Entries(B3(temp));
    Te4Entries(B0(temp));
    var a, b, c, d := Te41(B1(temp)), Te42(B2(temp)), Te43(B3(temp)), Te44(B0(temp));
    var k := Pack(RconByte(i + 1), 0, 0, 0);
    RconsArePowers(i);
    ShiftedByte(Rcons(i));
    BytesOfPack(B1(temp), B2(temp), B3(temp), B0(temp));
    FourBytes(SubByte(B1(temp)), SubByte(B2(temp)), SubByte(B3(temp)), SubByte(B0(temp)));
    Xor32Associates(first, a, b);
    Xor32Associates(first, Xor32(a, b), c);
    Xor32Associates(first, Xor32(Xor32(a, b), c), d);
    Xor32Associates(first, Xor32(Xor32(Xor32(a, b), c), d), k);
  }

  lemma DecKeyWordIsInvMix(w: bv32)
    ensures DecKeyWord(w) == InvMixColumn(w)
  {
    hide Td0, Te4, InvSubByte, SubByte, InvMixBytes, Pack, Xor32, Rotr8, Rotr16, Rotr24, B0, B1, B2, B3;
    hide Times9, TimesB, TimesD, TimesE;
    DecKeyByte(B0(w));
    DecKeyByte(B1(w));
    DecKeyByte(B2(w));
    DecKeyByte(B3(w));
    var p, q, r, s := B0(w), B1(w), B2(w), B3(w);
    Rotate8(TimesE(q), Times9(q), TimesD(q), TimesB(q));
    Rotate16(TimesE(r), Times9(r), TimesD(r), TimesB(r));
    Rotate24(TimesE(s), Times9(s), TimesD(s), TimesB(s));
    DecTableSum(p, q, r, s);
  }

  lemma DecKeyByte(x: bv8)
    ensures Td0(Te4(x)) == Pack(TimesE(x), Times9(x), TimesD(x), TimesB(x))
  {
    hide Te0, Td0, InvSubByte, Pack, Times9, TimesB, TimesD, TimesE;
    Td0Entry(SubByte(x));
    SubByteThenBack(x);
  }

  // ----- whole rounds -----

  lemma EncRoundByTables(s: Block, k: Block)
    ensures EncRound(s, k) == Block(EncColumn(s.c0, s.c1, s.c2, s.c3, k.c0), EncColumn(s.c1, s.c2, s.c3, s.c0, k.c1),
                                    EncColumn(s.c2, s.c3, s.c0, s.c1, k.c2), EncColumn(s.c3, s.c0, s.c1, s.c2, k.c3))
  {
    hide EncColumn, MixColumn, SubWord, Diagonal, Xor32;
    MixedColumn(s.c0, s.c1, s.c2, s.c3, k.c0);
    MixedColumn(s.c1, s.c2, s.c3, s.c0, k.c1);
    MixedColumn(s.c2, s.c3, s.c0, s.c1, k.c2);
    MixedColumn(s.c3, s.c0, s.c1, s.c2, k.c3);
  }

  lemma MixedColumn(w: bv32, x: bv32, y: bv32, z: bv32, k: bv32)
    ensures Xor32(MixColumn(Diagonal(SubWord(w), SubWord(x), SubWord(y), SubWord(z))), k) == EncColumn(w, x, y, z, k)
  {
    hide EncColumn, MixBytes, SubByte, Pack, B0, B1, B2, B3, Xor32;
    EncColumnIsMix(w, x, y, z, k);
    SubbedDiagonal(w, x, y, z);
    BytesOfPack(SubByte(B0(w)), SubByte(B1(x)), SubByte(B2(y)), SubByte(B3(z)));
  }

  lemma SubbedDiagonal(w: bv32, x: bv32, y: bv32, z: bv32)
    ensures Diagonal(SubWord(w), SubWord(x), SubWord(y), SubWord(z))
            == Pack(SubByte(B0(w)), SubByte(B1(x)), SubByte(B2(y)), SubByte(B3(z)))
  {
    hide B0, B1, B2, B3, Pack, SubByte;
    BytesOfPack(SubByte(B0(w)), SubByte(B1(w)), SubByte(B2(w)), SubByte(B3(w)));
    BytesOfPack(SubByte(B0(x)), SubByte(B1(x)), SubByte(B2(x)), SubByte(B3(x)));
    BytesOfPack(SubByte(B0(y)), SubByte(B1(y)), SubByte(B2(y)), SubByte(B3(y)));
    BytesOfPack(SubByte(B0(z)), SubByte(B1(z)), SubByte(B2(z)), SubByte(B3(z)));
  }

  lemma LastEncRoundByTables(s: Block, k: Block)
    ensures AddRoundKey(ShiftRows(SubBytes(s)), k)
            == Block(LastEncColumn(s.c0, s.c1, s.c2, s.c3, k.c0), LastEncColumn(s.c1, s.c2, s.c3, s.c0, k.c1),
                     LastEncColumn(s.c2, s.c3, s.c0, s.c1, k.c2), LastEncColumn(s.c3, s.c0, s.c1, s.c2, k.c3))
  {
    hide LastEncColumn, SubWord, SubByte, Diagonal, Pack, Xor32, B0, B1, B2, B3;
    LastEncColumnIsSub(s.c0, s.c1, s.c2, s.c3, k.c0);
    LastEncColumnIsSub(s.c1, s.c2, s.c3, s.c0, k.c1);
    LastEncColumnIsSub(s.c2, s.c3, s.c0, s.c1, k.c2);
    LastEncColumnIsSub(s.c3, s.c0, s.c1, s.c2, k.c3);
    SubbedDiagonal(s.c0, s.c1, s.c2, s.c3);
    SubbedDiagonal(s.c1, s.c2, s.c3, s.c0);
    SubbedDiagonal(s.c2, s.c3, s.c0, s.c1);
    SubbedDiagonal(s.c3, s.c0, s.c1, s.c2);
  }

  lemma InvSubbedDiagonal(w: bv32, x: bv32, y: bv32, z: bv32)
    ensures Diagonal(InvSubWord(w), InvSubWord(x), InvSubWord(y), InvSubWord(z))
            == Pack(InvSubByte(B0(w)), InvSubByte(B1(x)), InvSubByte(B2(y)), InvSubByte(B3(z)))
  {
    hide B0, B1, B2, B3, Pack, InvSubByte;
    BytesOfPack(InvSubByte(B0(w)), InvSubByte(B1(w)), InvSubByte(B2(w)), InvSubByte(B3(w)));
    BytesOfPack(InvSubByte(B0(x)), InvSubByte(B1(x)), InvSubByte(B2(x)), InvSubByte(B3(x)));
    BytesOfPack(InvSubByte(B0(y)), InvSubByte(B1(y)), InvSubByte(B2(y)), InvSubByte(B3(y)));
    BytesOfPack(InvSubByte(B0(z)), InvSubByte(B1(z)), InvSubByte(B2(z)), InvSubByte(B3(z)));
  }

  lemma UnmixedColumn(w: bv32, x: bv32, y: bv32, z: bv32, k: bv32)
    ensures Xor32(InvMixColumn(Diagonal(InvSubWord(w), InvSubWord(x), InvSubWord(y), InvSubWord(z))), k)
            == DecColumn(w, x, y, z, k)
  {
    hide DecColumn, InvMixBytes, InvSubByte, Pack, B0, B1, B2, B3, Xor32;
    DecColumnIsInvMix(w, x, y, z, k);
    InvSubbedDiagonal(w, x, y, z);
    BytesOfPack(InvSubByte(B0(w)), InvSubByte(B1(x)), InvSubByte(B2(y)), InvSubByte(B3(z)));
  }

  lemma DecRoundByTables(s: Block, k: Block)
    ensures DecRound(s, k) == Block(DecColumn(s.c0, s.c3, s.c2, s.c1, k.c0), DecColumn(s.c1, s.c0, s.c3, s.c2, k.c1),
                                    DecColumn(s.c2, s.c1, s.c0, s.c3, k.c2), DecColumn(s.c3, s.c2, s.c1, s.c0, k.c3))
  {
    hide DecColumn, InvMixColumn, InvSubWord, Diagonal, Xor32;
    UnmixedColumn(s.c0, s.c3, s.c2, s.c1, k.c0);
    UnmixedColumn(s.c1, s.c0, s.c3, s.c2, k.c1);
    UnmixedColumn(s.c2, s.c1, s.c0, s.c3, k.c2);
    UnmixedColumn(s.c3, s.c2, s.c1, s.c0, k.c3);
  }

  lemma LastDecRoundByTables(s: Block, k: Block)
    ensures AddRoundKey(InvShiftRows(InvSubBytes(s)), k)
            == Block(LastDecColumn(s.c0, s.c3, s.c2, s.c1, k.c0), LastDecColumn(s.c1, s.c0, s.c3, s.c2, k.c1),
                     LastDecColumn(s.c2, s.c1, s.c0, s.c3, k.c2), LastDecColumn(s.c3, s.c2, s.c1, s.c0, k.c3))
  {
    hide LastDecColumn, InvSubWord, InvSubByte, Diagonal, Pack, Xor32, B0, B1, B2, B3;
    LastDecColumnIsInvSub(s.c0, s.c3, s.c2, s.c1, k.c0);
    LastDecColumnIsInvSub(s.c1, s.c0, s.c3, s.c2, k.c1);
    LastDecColumnIsInvSub(s.c2, s.c1, s.c0, s.c3, k.c2);
    LastDecColumnIsInvSub(s.c3, s.c2, s.c1, s.c0, k.c3);
    InvSubbedDiagonal(s.c0, s.c3, s.c2, s.c1);
    InvSubbedDiagonal(s.c1, s.c0, s.c3, s.c2);
    InvSubbedDiagonal(s.c2, s.c1, s.c0, s.c3);
    InvSubbedDiagonal(s.c3, s.c2, s.c1, s.c0);
  }

  // ----- key setup -----

  /** The words of rk seen as eleven round keys. */
  ghost function RoundOf(w: seq<bv32>, r: nat): Block
    requires 4 * r + 3 < |w|
  {
    Block(w[4 * r], w[4 * r + 1], w[4 * r + 2], w[4 * r + 3])
  }

  lemma FirstRoundKey(key: seq<bv8>)
    requires |key| == 16
    ensures RoundKey(key, 0) == Block(Pack(key[0], key[1], key[2], key[3]), Pack(key[4], key[5], key[6], key[7]),
                                      Pack(key[8], key[9], key[10], key[11]), Pack(key[12], key[13], key[14], key[15]))
  {
    hide Pack;
  }

  /** One step of the expansion loop. */
  method KeySetupStep(rk: array<bv32>, key: seq<bv8>, i: nat)
    requires rk.Length == 44 && |key| == 16 && i < 10
    requires RoundOf(rk[..], i) == RoundKey(key, i)
    modifies rk
    ensures RoundOf(rk[..], i + 1) == RoundKey(key, i + 1)
    ensures rk[..4 * i + 4] == old(rk[..4 * i + 4])
  {
    hide Pack, Xor32, NextKeyWord, SubWord, RotWord, RconByte, KeyWord;
    var o := 4 * i;
    var temp := rk[o + 3];
    NextKeyWordIsExpansion(rk[o], temp, i);
    NextRoundKey(key, i);
    rk[o + 4] := NextKeyWord(rk[o], temp, i);
    rk[o + 5] := Xor32(rk[o + 1], rk[o + 4]);
    rk[o + 6] := Xor32(rk[o + 2], rk[o + 5]);
    rk[o + 7] := Xor32(rk[o + 3], rk[o + 6]);
  }

  method KeySetupEnc(rk: array<bv32>, key: seq<bv8>)
    requires rk.Length == 44 && |key| == 16
    modifies rk
    ensures Scheduled(rk, key)
  {
    hide Pack, KeyWord, RoundKey;
    FirstRoundKey(key);
    rk[0] := Pack(key[0], key[1], key[2], key[3]);
    rk[1] := Pack(key[4], key[5], key[6], key[7]);
    rk[2] := Pack(key[8], key[9], key[10], key[11]);
    rk[3] := Pack(key[12], key[13], key[14], key[15]);
    for i := 0 to 10
      invariant forall r :: 0 <= r <= i ==> RoundOf(rk[..], r) == RoundKey(key, r)
    {
      ghost var before := rk[..4 * i + 4];
      KeySetupStep(rk, key, i);
      forall r | 0 <= r <= i ensures RoundOf(rk[..], r) == RoundKey(key, r) {
        assert forall k :: 0 <= k < 4 * i + 4 ==> rk[k] == rk[..4 * i + 4][k] == before[k];
      }
    }
  }

  lemma NextRoundKey(key: seq<bv8>, i: nat)
    requires |key| == 16
    ensures var k, n := RoundKey(key, i), RoundKey(key, i + 1);
            && n.c0 == Xor32(k.c0, Xor32(SubWord(RotWord(k.c3)), Pack(RconByte(i + 1), 0, 0, 0)))
            && n.c1 == Xor32(k.c1, n.c0) && n.c2 == Xor32(k.c2, n.c1) && n.c3 == Xor32(k.c3, n.c2)
  {
    hide Pack, Xor32, SubWord, RotWord, RconByte;
    assert (4 * (i + 1)) % 4 == 0 && (4 * (i + 1)) / 4 == i + 1;
  }

  method SwapWords(rk: array<bv32>, i: nat, j: nat)
    requires i < j < rk.Length
    modifies rk
    ensures rk[..] == old(rk[..])[i := old(rk[j])][j := old(rk[i])]
  {
    var temp := rk[i];
    rk[i] := rk[j];
    rk[j] := temp;
  }

  /** The words i..i+4 and j..j+4 exchanged. */
  ghost predicate Swapped(before: seq<bv32>, after: seq<bv32>, i: nat, j: nat)
    requires |before| == |after| == 44 && i < j <= 40
  {
    && after[i] == before[j] && after[i + 1] == before[j + 1]
    && after[i + 2] == before[j + 2] && after[i + 3] == before[j + 3]
    && after[j] == before[i] && after[j + 1] == before[i + 1]
    && after[j + 2] == before[i + 2] && after[j + 3] == before[i + 3]
    && forall k :: 0 <= k < 44 && !(i <= k < i + 4) && !(j <= k < j + 4) ==> after[k] == before[k]
  }

  method SwapRounds(rk: array<bv32>, i: nat, j: nat)
    requires rk.Length == 44 && i + 4 <= j <= 40
    modifies rk
    ensures Swapped(old(rk[..]), rk[..], i, j)
  {
    SwapWords(rk, i, j);
    SwapWords(rk, i + 1, j + 1);
    SwapWords(rk, i + 2, j + 2);
    SwapWords(rk, i + 3, j + 3);
  }

  lemma SwappedRounds(before: seq<bv32>, after: seq<bv32>, a: nat, b: nat)
    requires |before| == |after| == 44 && a < b <= 10 && Swapped(before, after, 4 * a, 4 * b)
    ensures RoundOf(after, a) == RoundOf(before, b) && RoundOf(after, b) == RoundOf(before, a)
    ensures forall r :: 0 <= r <= 10 && r != a && r != b ==> RoundOf(after, r) == RoundOf(before, r)
  {}

  method InvertOrder(rk: array<bv32>, ghost key: seq<bv8>)
    requires rk.Length == 44 && |key| == 16
    requires forall r :: 0 <= r <= 10 ==> RoundOf(rk[..], r) == RoundKey(key, r)
    modifies rk
    ensures forall r :: 0 <= r <= 10 ==> RoundOf(rk[..], r) == RoundKey(key, 10 - r)
  {
    hide RoundKey, RoundOf;
    var i, j := 0, 40;
    ghost var a := 0;
    while i < j
      invariant i == 4 * a && j == 4 * (10 - a) && a <= 5
      invariant forall r :: 0 <= r < a || 10 - a < r <= 10 ==> RoundOf(rk[..], r) == RoundKey(key, 10 - r)
      invariant forall r :: a <= r <= 10 - a ==> RoundOf(rk[..], r) == RoundKey(key, r)
    {
      ghost var before := rk[..];
      SwapRounds(rk, i, j);
      SwappedRounds(before, rk[..], a, 10 - a);
      i, j, a := i + 4, j - 4, a + 1;
    }
  }

  /** Replaces one round key by its unmixed form. */
  method UnmixRound(rk: array<bv32>, i: nat)
    requires rk.Length == 44 && i <= 10
    modifies rk
    ensures RoundOf(rk[..], i) == InvMixColumns(old(RoundOf(rk[..], i)))
    ensures forall r :: 0 <= r <= 10 && r != i ==> RoundOf(rk[..], r) == old(RoundOf(rk[..], r))
  {
    hide InvMixColumn, DecKeyWord;
    for j := 0 to 4
      invariant forall k :: 0 <= k < 44 && !(4 * i <= k < 4 * i + j) ==> rk[k] == old(rk[k])
      invariant forall k :: 4 * i <= k < 4 * i + j ==> rk[k] == InvMixColumn(old(rk[k]))
    {
      DecKeyWordIsInvMix(rk[4 * i + j]);
      rk[4 * i + j] := DecKeyWord(rk[4 * i + j]);
    }
  }

  method KeySetupDec(rk: array<bv32>, key: seq<bv8>)
    requires rk.Length == 44 && |key| == 16
    modifies rk
    ensures ScheduledDec(rk, key)
  {
    hide RoundKey, RoundOf, InvMixColumns;
    KeySetupEnc(rk, key);
    InvertOrder(rk, key);
    for i := 1 to 10
      invariant forall r :: 0 <= r < i ==> RoundOf(rk[..], r) == DecRoundKey(key, r)
      invariant forall r :: i <= r <= 10 ==> RoundOf(rk[..], r) == RoundKey(key, 10 - r)
    {
      UnmixRound(rk, i);
    }
  }

  // ----- blocks -----

  function GetWord(a: array<bv8>, o: nat): bv32
    requires o + 3 < a.Length
    reads a
  {
    Pack(a[o], a[o + 1], a[o + 2], a[o + 3])
  }

  ghost function BlockAt(a: array<bv8>, o: nat): Block
    requires o + 15 < a.Length
    reads a
  {
    Block(GetWord(a, o), GetWord(a, o + 4), GetWord(a, o + 8), GetWord(a, o + 12))
  }

  method PutWord(a: array<bv8>, o: nat, w: bv32)
    requires o + 3 < a.Length
    modifies a
    ensures GetWord(a, o) == w
    ensures forall k :: 0 <= k < a.Length && !(o <= k < o + 4) ==> a[k] == old(a[k])
  {
    hide Pack, B0, B1, B2, B3;
    a[o] := B0(w);
    a[o + 1] := B1(w);
    a[o + 2] := B2(w);
    a[o + 3] := B3(w);
    PackOfBytes(w);
  }

  method PutBlock(a: array<bv8>, o: nat, s: Block)
    requires o + 15 < a.Length
    modifies a
    ensures BlockAt(a, o) == s
    ensures forall k :: 0 <= k < a.Length && !(o <= k < o + 16) ==> a[k] == old(a[k])
  {
    hide Pack;
    PutWord(a, o, s.c0);
    PutWord(a, o + 4, s.c1);
    PutWord(a, o + 8, s.c2);
    PutWord(a, o + 12, s.c3);
  }

  /** The ROUND macro of encryption with round key words from rk[o]. */
  function EncTable(rk: array<bv32>, o: nat, s: Block): Block
    requires o + 3 < rk.Length
    reads rk
  {
    Block(EncColumn(s.c0, s.c1, s.c2, s.c3, rk[o]),
          EncColumn(s.c1, s.c2, s.c3, s.c0, rk[o + 1]),
          EncColumn(s.c2, s.c3, s.c0, s.c1, rk[o + 2]),
          EncColumn(s.c3, s.c0, s.c1, s.c2, rk[o + 3]))
  }

  /** The last round of encryption. */
  function EncLastTable(rk: array<bv32>, o: nat, s: Block): Block
    requires o + 3 < rk.Length
    reads rk
  {
    Block(LastEncColumn(s.c0, s.c1, s.c2, s.c3, rk[o]),
          LastEncColumn(s.c1, s.c2, s.c3, s.c0, rk[o + 1]),
          LastEncColumn(s.c2, s.c3, s.c0, s.c1, rk[o + 2]),
          LastEncColumn(s.c3, s.c0, s.c1, s.c2, rk[o + 3]))
  }

  lemma EncTableIsRound(rk: array<bv32>, r: nat, s: Block)
    requires rk.Length == 44 && r <= 10
    ensures EncTable(rk, 4 * r, s) == EncRound(s, RoundOf(rk[..], r))
    ensures EncLastTable(rk, 4 * r, s) == AddRoundKey(ShiftRows(SubBytes(s)), RoundOf(rk[..], r))
  {
    hide EncColumn, LastEncColumn, EncRound, AddRoundKey, ShiftRows, SubBytes;
    EncRoundByTables(s, RoundOf(rk[..], r));
    LastEncRoundByTables(s, RoundOf(rk[..], r));
  }

  /** The words of rk are the key schedule. */
  ghost predicate Scheduled(rk: array<bv32>, key: seq<bv8>)
    requires rk.Length == 44 && |key| == 16
    reads rk
  {
    forall r :: 0 <= r <= 10 ==> RoundOf(rk[..], r) == RoundKey(key, r)
  }

  ghost predicate ScheduledDec(rk: array<bv32>, key: seq<bv8>)
    requires rk.Length == 44 && |key| == 16
    reads rk
  {
    forall r :: 0 <= r <= 10 ==> RoundOf(rk[..], r) == DecRoundKey(key, r)
  }

  lemma EncStart(rk: array<bv32>, input: Block, key: seq<bv8>)
    requires rk.Length == 44 && |key| == 16 && Scheduled(rk, key)
    ensures AddRoundKey(input, Block(rk[0], rk[1], rk[2], rk[3])) == EncRounds(key, input, 0)
  {
    assert RoundOf(rk[..], 0) == RoundKey(key, 0);
    hide RoundKey, AddRoundKey;
  }

  lemma EncStep(rk: array<bv32>, r: nat, input: Block, key: seq<bv8>)
    requires rk.Length == 44 && |key| == 16 && Scheduled(rk, key) && 1 <= r <= 9
    ensures EncTable(rk, 4 * r, EncRounds(key, input, r - 1)) == EncRounds(key, input, r)
  {
    hide EncTable, EncRound, RoundKey;
    EncTableIsRound(rk, r, EncRounds(key, input, r - 1));
    assert RoundOf(rk[..], r) == RoundKey(key, r);
  }

  lemma EncFinish(rk: array<bv32>, input: Block, key: seq<bv8>)
    requires rk.Length == 44 && |key| == 16 && Scheduled(rk, key)
    ensures EncLastTable(rk, 40, EncRounds(key, input, 9)) == Cipher(key, input)
  {
    hide EncLastTable, EncRound, RoundKey, SubBytes, ShiftRows, EncRounds;
    EncTableIsRound(rk, 10, EncRounds(key, input, 9));
    assert RoundOf(rk[..], 10) == RoundKey(key, 10);
  }

  lemma DecStart(rk: array<bv32>, input: Block, key: seq<bv8>)
    requires rk.Length == 44 && |key| == 16 && ScheduledDec(rk, key)
    ensures AddRoundKey(input, Block(rk[0], rk[1], rk[2], rk[3])) == DecRounds(key, input, 0)
  {
    assert RoundOf(rk[..], 0) == DecRoundKey(key, 0);
    hide DecRoundKey, AddRoundKey;
  }

  lemma DecStep(rk: array<bv32>, r: nat, input: Block, key: seq<bv8>)
    requires rk.Length == 44 && |key| == 16 && ScheduledDec(rk, key) && 1 <= r <= 9
    ensures DecTable(rk, 4 * r, DecRounds(key, input, r - 1)) == DecRounds(key, input, r)
  {
    hide DecTable, DecRound, DecRoundKey;
    DecTableIsRound(rk, r, DecRounds(key, input, r - 1));
    assert RoundOf(rk[..], r) == DecRoundKey(key, r);
  }

  lemma DecFinish(rk: array<bv32>, input: Block, key: seq<bv8>)
    requires rk.Length == 44 && |key| == 16 && ScheduledDec(rk, key)
    ensures DecLastTable(rk, 40, DecRounds(key, input, 9)) == EqInvCipher(key, input)
  {
    hide DecLastTable, DecRound, DecRoundKey, InvSubBytes, InvShiftRows, DecRounds;
    DecTableIsRound(rk, 10, DecRounds(key, input, 9));
    assert RoundOf(rk[..], 10) == DecRoundKey(key, 10);
  }

  /** The rounds of encryption on the state. */
  method EncryptState(rk: array<bv32>, input: Block, ghost key: seq<bv8>) returns (output: Block)
    requires rk.Length == 44 && |key| == 16
    requires Scheduled(rk, key)
    ensures output == Cipher(key, input)
  {
    hide *;
    var s := AddRoundKey(input, Block(rk[0], rk[1], rk[2], rk[3]));
    EncStart(rk, input, key);
    var t: Block;
    var r, o := 5, 0;
    while true
      invariant 1 <= r <= 5 && o == 8 * (5 - r)
      invariant s == EncRounds(key, input, 10 - 2 * r)
      decreases r
    {
      t := EncTable(rk, o + 4, s);
      EncStep(rk, 11 - 2 * r, input, key);
      o := o + 8;
      r := r - 1;
      if r == 0 {
        break;
      }
      s := EncTable(rk, o, t);
      EncStep(rk, 10 - 2 * r, input, key);
    }
    output := EncLastTable(rk, o, t);
    EncFinish(rk, input, key);
  }

  /** The ROUND macro of decryption with round key words from rk[o]. */
  function DecTable(rk: array<bv32>, o: nat, s: Block): Block
    requires o + 3 < rk.Length
    reads rk
  {
    Block(DecColumn(s.c0, s.c3, s.c2, s.c1, rk[o]),
          DecColumn(s.c1, s.c0, s.c3, s.c2, rk[o + 1]),
          DecColumn(s.c2, s.c1, s.c0, s.c3, rk[o + 2]),
          DecColumn(s.c3, s.c2, s.c1, s.c0, rk[o + 3]))
  }

  /** The last round of decryption. */
  function DecLastTable(rk: array<bv32>, o: nat, s: Block): Block
    requires o + 3 < rk.Length
    reads rk
  {
    Block(LastDecColumn(s.c0, s.c3, s.c2, s.c1, rk[o]),
          LastDecColumn(s.c1, s.c0, s.c3, s.c2, rk[o + 1]),
          LastDecColumn(s.c2, s.c1, s.c0, s.c3, rk[o + 2]),
          LastDecColumn(s.c3, s.c2, s.c1, s.c0, rk[o + 3]))
  }

  lemma DecTableIsRound(rk: array<bv32>, r: nat, s: Block)
    requires rk.Length == 44 && r <= 10
    ensures DecTable(rk, 4 * r, s) == DecRound(s, RoundOf(rk[..], r))
    ensures DecLastTable(rk, 4 * r, s) == AddRoundKey(InvShiftRows(InvSubBytes(s)), RoundOf(rk[..], r))
  {
    hide DecColumn, LastDecColumn, DecRound, AddRoundKey, InvShiftRows, InvSubBytes;
    DecRoundByTables(s, RoundOf(rk[..], r));
    LastDecRoundByTables(s, RoundOf(rk[..], r));
  }

  /** The rounds of decryption on the state. */
  method DecryptState(rk: array<bv32>, input: Block, ghost key: seq<bv8>) returns (output: Block)
    requires rk.Length == 44 && |key| == 16
    requires ScheduledDec(rk, key)
    ensures output == EqInvCipher(key, input)
  {
    hide *;
    var s := AddRoundKey(input, Block(rk[0], rk[1], rk[2], rk[3]));
    DecStart(rk, input, key);
    var t: Block;
    var r, o := 5, 0;
    while true
      invariant 1 <= r <= 5 && o == 8 * (5 - r)
      invariant s == DecRounds(key, input, 10 - 2 * r)
      decreases r
    {
      t := DecTable(rk, o + 4, s);
      DecStep(rk, 11 - 2 * r, input, key);
      o := o + 8;
      r := r - 1;
      if r == 0 {
        break;
      }
      s := DecTable(rk, o, t);
      DecStep(rk, 10 - 2 * r, input, key);
    }
    output := DecLastTable(rk, o, t);
    DecFinish(rk, input, key);
  }

  /** Encrypts the block at `pt[po..]` into `ct[co..]`; the two may be the same. */
  method Encrypt(rk: array<bv32>, pt: array<bv8>, po: nat, ct: array<bv8>, co: nat, ghost key: seq<bv8>)
    requires rk.Length == 44 && |key| == 16
    requires Scheduled(rk, key)
    requires po + 15 < pt.Length && co + 15 < ct.Length
    modifies ct
    ensures BlockAt(ct, co) == Cipher(key, old(BlockAt(pt, po)))
    ensures forall k :: 0 <= k < ct.Length && !(co <= k < co + 16) ==> ct[k] == old(ct[k])
  {
    hide GetWord, Cipher;
    var b := Block(GetWord(pt, po), GetWord(pt, po + 4), GetWord(pt, po + 8), GetWord(pt, po + 12));
    var s := EncryptState(rk, b, key);
    PutBlock(ct, co, s);
  }

  /** Decrypts the block at `ct[co..]` into `pt[po..]`; the two may be the same. */
  method Decrypt(rk: array<bv32>, ct: array<bv8>, co: nat, pt: array<bv8>, po: nat, ghost key: seq<bv8>)
    requires rk.Length == 44 && |key| == 16
    requires ScheduledDec(rk, key)
    requires po + 15 < pt.Length && co + 15 < ct.Length
    modifies pt
    ensures BlockAt(pt, po) == EqInvCipher(key, old(BlockAt(ct, co)))
    ensures forall k :: 0 <= k < pt.Length && !(po <= k < po + 16) ==> pt[k] == old(pt[k])
  {
    hide GetWord, EqInvCipher;
    var b := Block(GetWord(ct, co), GetWord(ct, co + 4), GetWord(ct, co + 8), GetWord(ct, co + 12));
    var s := DecryptState(rk, b, key);
    PutBlock(pt, po, s);
  }

  /** Both key setups, encryption in place and decryption in place: every block of
      every buffer comes back under every key. */
  method RoundTrip(key: seq<bv8>, buf: array<bv8>, o: nat)
    requires |key| == 16 && o + 15 < buf.Length
    modifies buf
    ensures BlockAt(buf, o) == old(BlockAt(buf, o))
    ensures forall k :: 0 <= k < buf.Length && !(o <= k < o + 16) ==> buf[k] == old(buf[k])
  {
    hide *;
    var enc, dec := new bv32[44], new bv32[44];
    KeySetupEnc(enc, key);
    KeySetupDec(dec, key);
    EqInvCipherUndoesCipher(key, BlockAt(buf, o));
    Encrypt(enc, buf, o, buf, o, key);
    Decrypt(dec, buf, o, buf, o, key);
  }
}
