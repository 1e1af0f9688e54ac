/** The cipher of FIPS 197 for 128-bit keys: KeyExpansion (section 5.2), Cipher
    (section 5.1), InvCipher (section 5.3) and EqInvCipher (section 5.3.5). */
module AesSpec {
  import opened AesField

  /** The state: four columns, row 0 in the most significant byte. */
  datatype Block = Block(c0: bv32, c1: bv32, c2: bv32, c3: bv32)

  // ----- transformations of a column -----

  function SubWord(w: bv32): bv32 {
    Pack(SubByte(B0(w)), SubByte(B1(w)), SubByte(B2(w)), SubByte(B3(w)))
  }

  function InvSubWord(w: bv32): bv32 {
    Pack(InvSubByte(B0(w)), InvSubByte(B1(w)), InvSubByte(B2(w)), InvSubByte(B3(w)))
  }

  function Sum4(p: bv8, q: bv8, r: bv8, s: bv8): bv8 { Xor8(Xor8(p, q), Xor8(r, s)) }

  /** One row of the matrix of MixColumns; the others are its rotations. */
  function MixRow(a: bv8, b: bv8, c: bv8, d: bv8): bv8 {
    Sum4(XTime(a), Times3(b), c, d)
  }

  function InvMixRow(a: bv8, b: bv8, c: bv8, d: bv8): bv8 {
    Sum4(TimesE(a), TimesB(b), TimesD(c), Times9(d))
  }

  function MixBytes(a: bv8, b: bv8, c: bv8, d: bv8): bv32 {
    Pack(MixRow(a, b, c, d), MixRow(b, c, d, a), MixRow(c, d, a, b), MixRow(d, a, b, c))
  }

  function InvMixBytes(a: bv8, b: bv8, c: bv8, d: bv8): bv32 {
    Pack(InvMixRow(a, b, c, d), InvMixRow(b, c, d, a), InvMixRow(c, d, a, b), InvMixRow(d, a, b, c))
  }

  function MixColumn(w: bv32): bv32 { MixBytes(B0(w), B1(w), B2(w), B3(w)) }

  function InvMixColumn(w: bv32): bv32 { InvMixBytes(B0(w), B1(w), B2(w), B3(w)) }

  // ----- both mixings are linear over exclusive-or -----

  lemma XTimeLinear(a: bv8, b: bv8)
    ensures XTime(Xor8(a, b)) == Xor8(XTime(a), XTime(b))
  {
    if a & 0x80 != 0 {}
    if b & 0x80 != 0 {}
    assert (a ^ b) << 1 == (a << 1) ^ (b << 1);
  }

  lemma XorCommutes(a: bv8, b: bv8)
    ensures Xor8(a, b) == Xor8(b, a)
  {}

  lemma XorAssociates(a: bv8, b: bv8, c: bv8)
    ensures Xor8(Xor8(a, b), c) == Xor8(a, Xor8(b, c))
  {}

  lemma Interchange(a: bv8, b: bv8, c: bv8, d: bv8)
    ensures Xor8(Xor8(a, b), Xor8(c, d)) == Xor8(Xor8(a, c), Xor8(b, d))
  {
    hide Xor8;
    XorAssociates(a, b, Xor8(c, d));
    XorAssociates(b, c, d);
    XorCommutes(b, c);
    XorAssociates(c, b, d);
    XorAssociates(a, c, Xor8(b, d));
  }

  lemma Times4Linear(a: bv8, b: bv8)
    ensures Times4(Xor8(a, b)) == Xor8(Times4(a), Times4(b))
  {
    hide XTime, Xor8;
    XTimeLinear(a, b);
    XTimeLinear(XTime(a), XTime(b));
  }

  lemma Times8Linear(a: bv8, b: bv8)
    ensures Times8(Xor8(a, b)) == Xor8(Times8(a), Times8(b))
  {
    hide XTime, Xor8;
    XTimeLinear(a, b);
    XTimeLinear(XTime(a), XTime(b));
    XTimeLinear(XTime(XTime(a)), XTime(XTime(b)));
  }

  lemma Times3Linear(a: bv8, b: bv8)
    ensures Times3(Xor8(a, b)) == Xor8(Times3(a), Times3(b))
  {
    hide XTime, Xor8;
    XTimeLinear(a, b);
    Interchange(XTime(a), XTime(b), a, b);
  }

  lemma Times9Linear(a: bv8, b: bv8)
    ensures Times9(Xor8(a, b)) == Xor8(Times9(a), Times9(b))
  {
    hide Times8, Xor8;
    Times8Linear(a, b);
    Interchange(Times8(a), Times8(b), a, b);
  }

  lemma TimesBLinear(a: bv8, b: bv8)
    ensures TimesB(Xor8(a, b)) == Xor8(TimesB(a), TimesB(b))
  {
    hide XTime, Times8, Xor8;
    XTimeLinear(a, b);
    Times8Linear(a, b);
    Interchange(Times8(a), Times8(b), XTime(a), XTime(b));
    Interchange(Xor8(Times8(a), XTime(a)), Xor8(Times8(b), XTime(b)), a, b);
  }

  lemma TimesDLinear(a: bv8, b: bv8)
    ensures TimesD(Xor8(a, b)) == Xor8(TimesD(a), TimesD(b))
  {
    hide Times4, Times8, Xor8;
    Times4Linear(a, b);
    Times8Linear(a, b);
    Interchange(Times8(a), Times8(b), Times4(a), Times4(b));
    Interchange(Xor8(Times8(a), Times4(a)), Xor8(Times8(b), Times4(b)), a, b);
  }

  lemma TimesELinear(a: bv8, b: bv8)
    ensures TimesE(Xor8(a, b)) == Xor8(TimesE(a), TimesE(b))
  {
    hide XTime, Times4, Times8, Xor8;
    XTimeLinear(a, b);
    Times4Linear(a, b);
    Times8Linear(a, b);
    Interchange(Times8(a), Times8(b), Times4(a), Times4(b));
    Interchange(Xor8(Times8(a), Times4(a)), Xor8(Times8(b), Times4(b)), XTime(a), XTime(b));
  }

  lemma Sum4Linear(p: bv8, q: bv8, r: bv8, s: bv8, p': bv8, q': bv8, r': bv8, s': bv8)
    ensures Sum4(Xor8(p, p'), Xor8(q, q'), Xor8(r, r'), Xor8(s, s')) == Xor8(Sum4(p, q, r, s), Sum4(p', q', r', s'))
  {
    hide Xor8;
    Interchange(p, p', q, q');
    Interchange(r, r', s, s');
    Interchange(Xor8(p, q), Xor8(p', q'), Xor8(r, s), Xor8(r', s'));
  }

  lemma MixRowLinear(a: bv8, b: bv8, c: bv8, d: bv8, a': bv8, b': bv8, c': bv8, d': bv8)
    ensures MixRow(Xor8(a, a'), Xor8(b, b'), Xor8(c, c'), Xor8(d, d'))
         == Xor8(MixRow(a, b, c, d), MixRow(a', b', c', d'))
  {
    hide XTime, Times3, Sum4, Xor8;
    XTimeLinear(a, a');
    Times3Linear(b, b');
    Sum4Linear(XTime(a), Times3(b), c, d, XTime(a'), Times3(b'), c', d');
  }

  lemma InvMixRowLinear(a: bv8, b: bv8, c: bv8, d: bv8, a': bv8, b': bv8, c': bv8, d': bv8)
    ensures InvMixRow(Xor8(a, a'), Xor8(b, b'), Xor8(c, c'), Xor8(d, d'))
         == Xor8(InvMixRow(a, b, c, d), InvMixRow(a', b', c', d'))
  {
    hide TimesE, TimesB, TimesD, Times9, Sum4, Xor8;
    TimesELinear(a, a');
    TimesBLinear(b, b');
    TimesDLinear(c, c');
    Times9Linear(d, d');
    Sum4Linear(TimesE(a), TimesB(b), TimesD(c), Times9(d), TimesE(a'), TimesB(b'), TimesD(c'), Times9(d'));
  }

  lemma PackLinear(a: bv8, b: bv8, c: bv8, d: bv8, a': bv8, b': bv8, c': bv8, d': bv8)
    ensures Pack(Xor8(a, a'), Xor8(b, b'), Xor8(c, c'), Xor8(d, d')) == Xor32(Pack(a, b, c, d), Pack(a', b', c', d'))
  {}

  lemma BytesOfXor(v: bv32, w: bv32)
    ensures B0(v ^ w) == B0(v) ^ B0(w) && B1(v ^ w) == B1(v) ^ B1(w)
    ensures B2(v ^ w) == B2(v) ^ B2(w) && B3(v ^ w) == B3(v) ^ B3(w)
  {}

  lemma BytesLinear(v: bv32, w: bv32)
    ensures B0(Xor32(v, w)) == Xor8(B0(v), B0(w)) && B1(Xor32(v, w)) == Xor8(B1(v), B1(w))
    ensures B2(Xor32(v, w)) == Xor8(B2(v), B2(w)) && B3(Xor32(v, w)) == Xor8(B3(v), B3(w))
  {
    hide B0, B1, B2, B3;
    BytesOfXor(v, w);
  }

  lemma MixLinear(v: bv32, w: bv32)
    ensures MixColumn(Xor32(v, w)) == Xor32(MixColumn(v), MixColumn(w))
  {
    hide B0, B1, B2, B3, Pack, MixRow, Xor8, Xor32;
    BytesLinear(v, w);
    MixRowLinear(B0(v), B1(v), B2(v), B3(v), B0(w), B1(w), B2(w), B3(w));
    MixRowLinear(B1(v), B2(v), B3(v), B0(v), B1(w), B2(w), B3(w), B0(w));
    MixRowLinear(B2(v), B3(v), B0(v), B1(v), B2(w), B3(w), B0(w), B1(w));
    MixRowLinear(B3(v), B0(v), B1(v), B2(v), B3(w), B0(w), B1(w), B2(w));
    PackLinear(MixRow(B0(v), B1(v), B2(v), B3(v)), MixRow(B1(v), B2(v), B3(v), B0(v)),
               MixRow(B2(v), B3(v), B0(v), B1(v)), MixRow(B3(v), B0(v), B1(v), B2(v)),
               MixRow(B0(w), B1(w), B2(w), B3(w)), MixRow(B1(w), B2(w), B3(w), B0(w)),
               MixRow(B2(w), B3(w), B0(w), B1(w)), MixRow(B3(w), B0(w), B1(w), B2(w)));
  }

  lemma InvMixLinear(v: bv32, w: bv32)
    ensures InvMixColumn(Xor32(v, w)) == Xor32(InvMixColumn(v), InvMixColumn(w))
  {
    hide B0, B1, B2, B3, Pack, InvMixRow, Xor8, Xor32;
    BytesLinear(v, w);
    InvMixRowLinear(B0(v), B1(v), B2(v), B3(v), B0(w), B1(w), B2(w), B3(w));
    InvMixRowLinear(B1(v), B2(v), B3(v), B0(v), B1(w), B2(w), B3(w), B0(w));
    InvMixRowLinear(B2(v), B3(v), B0(v), B1(v), B2(w), B3(w), B0(w), B1(w));
    InvMixRowLinear(B3(v), B0(v), B1(v), B2(v), B3(w), B0(w), B1(w), B2(w));
    PackLinear(InvMixRow(B0(v), B1(v), B2(v), B3(v)), InvMixRow(B1(v), B2(v), B3(v), B0(v)),
               InvMixRow(B2(v), B3(v), B0(v), B1(v)), InvMixRow(B3(v), B0(v), B1(v), B2(v)),
               InvMixRow(B0(w), B1(w), B2(w), B3(w)), InvMixRow(B1(w), B2(w), B3(w), B0(w)),
               InvMixRow(B2(w), B3(w), B0(w), B1(w)), InvMixRow(B3(w), B0(w), B1(w), B2(w)));
  }

  // ----- and they undo each other -----

  // A row of the inverse matrix times a column of the matrix is one or zero.

  lemma RowTimesColumn0(a: bv8)
    ensures InvMixRow(XTime(a), a, a, Times3(a)) == a
  {
  }

  lemma RowTimesColumn1(a: bv8)
    ensures InvMixRow(Times3(a), XTime(a), a, a) == 0
  {
  }

  lemma RowTimesColumn2(a: bv8)
    ensures InvMixRow(a, Times3(a), XTime(a), a) == 0
  {
  }

  lemma RowTimesColumn3(a: bv8)
    ensures InvMixRow(a, a, Times3(a), XTime(a)) == 0
  {
  }

  lemma MixRowUnits(a: bv8)
    ensures MixRow(a, 0, 0, 0) == XTime(a) && MixRow(0, a, 0, 0) == Times3(a)
    ensures MixRow(0, 0, a, 0) == a && MixRow(0, 0, 0, a) == a
  {}

  predicate MixUndone(w: bv32) { InvMixColumn(MixColumn(w)) == w }

  lemma RowsTimesColumn(a: bv8)
    ensures InvMixRow(XTime(a), a, a, Times3(a)) == a
    ensures InvMixRow(Times3(a), XTime(a), a, a) == 0
    ensures InvMixRow(a, Times3(a), XTime(a), a) == 0
    ensures InvMixRow(a, a, Times3(a), XTime(a)) == 0
  {
    hide *;
    RowTimesColumn0(a);
    RowTimesColumn1(a);
    RowTimesColumn2(a);
    RowTimesColumn3(a);
  }

  lemma MixUndone0(a: bv8)
    ensures MixUndone(Pack(a, 0, 0, 0))
  {
    hide B0, B1, B2, B3, Pack, MixRow, InvMixRow, XTime, Times3;
    BytesOfPack(a, 0, 0, 0);
    MixRowUnits(a);
    BytesOfPack(XTime(a), a, a, Times3(a));
    RowsTimesColumn(a);
  }

  lemma MixUndone1(a: bv8)
    ensures MixUndone(Pack(0, a, 0, 0))
  {
    hide B0, B1, B2, B3, Pack, MixRow, InvMixRow, XTime, Times3;
    BytesOfPack(0, a, 0, 0);
    MixRowUnits(a);
    BytesOfPack(Times3(a), XTime(a), a, a);
    RowsTimesColumn(a);
  }

  lemma MixUndone2(a: bv8)
    ensures MixUndone(Pack(0, 0, a, 0))
  {
    hide B0, B1, B2, B3, Pack, MixRow, InvMixRow, XTime, Times3;
    BytesOfPack(0, 0, a, 0);
    MixRowUnits(a);
    BytesOfPack(a, Times3(a), XTime(a), a);
    RowsTimesColumn(a);
  }

  lemma MixUndone3(a: bv8)
    ensures MixUndone(Pack(0, 0, 0, a))
  {
    hide B0, B1, B2, B3, Pack, MixRow, InvMixRow, XTime, Times3;
    BytesOfPack(0, 0, 0, a);
    MixRowUnits(a);
    BytesOfPack(a, a, Times3(a), XTime(a));
    RowsTimesColumn(a);
  }

  lemma MixUndoneSum(v: bv32, w: bv32)
    requires MixUndone(v) && MixUndone(w)
    ensures MixUndone(Xor32(v, w))
  {
    hide MixColumn, InvMixColumn, Xor32;
    MixLinear(v, w);
    InvMixLinear(MixColumn(v), MixColumn(w));
  }

  lemma PackIsSum(a: bv8, b: bv8, c: bv8, d: bv8)
    ensures Xor32(Xor32(Pack(a, 0, 0, 0), Pack(0, b, 0, 0)), Xor32(Pack(0, 0, c, 0), Pack(0, 0, 0, d)))
         == Pack(a, b, c, d)
  {}

  lemma MixUndoneAll(w: bv32)
    ensures MixUndone(w)
  {
    hide *;
    MixUndone0(B0(w));
    MixUndone1(B1(w));
    MixUndone2(B2(w));
    MixUndone3(B3(w));
    MixUndoneSum(Pack(B0(w), 0, 0, 0), Pack(0, B1(w), 0, 0));
    MixUndoneSum(Pack(0, 0, B2(w), 0), Pack(0, 0, 0, B3(w)));
    MixUndoneSum(Xor32(Pack(B0(w), 0, 0, 0), Pack(0, B1(w), 0, 0)), Xor32(Pack(0, 0, B2(w), 0), Pack(0, 0, 0, B3(w))));
    PackIsSum(B0(w), B1(w), B2(w), B3(w));
    PackOfBytes(w);
  }

  lemma InvSubOfSub(w: bv32)
    ensures InvSubWord(SubWord(w)) == w
  {
    hide SubByte, InvSubByte;
    SubByteThenBack(B0(w));
    SubByteThenBack(B1(w));
    SubByteThenBack(B2(w));
    SubByteThenBack(B3(w));
    BytesOfPack(SubByte(B0(w)), SubByte(B1(w)), SubByte(B2(w)), SubByte(B3(w)));
    PackOfBytes(w);
  }

  // ----- transformations of the state -----

  function SubBytes(s: Block): Block {
    Block(SubWord(s.c0), SubWord(s.c1), SubWord(s.c2), SubWord(s.c3))
  }

  function InvSubBytes(s: Block): Block {
    Block(InvSubWord(s.c0), InvSubWord(s.c1), InvSubWord(s.c2), InvSubWord(s.c3))
  }

  /** A column made of row 0 of the first, row 1 of the second, and so on. */
  function Diagonal(w: bv32, x: bv32, y: bv32, z: bv32): bv32 {
    Pack(B0(w), B1(x), B2(y), B3(z))
  }

  function ShiftRows(s: Block): Block {
    Block(Diagonal(s.c0, s.c1, s.c2, s.c3), Diagonal(s.c1, s.c2, s.c3, s.c0),
          Diagonal(s.c2, s.c3, s.c0, s.c1), Diagonal(s.c3, s.c0, s.c1, s.c2))
  }

  function InvShiftRows(s: Block): Block {
    Block(Diagonal(s.c0, s.c3, s.c2, s.c1), Diagonal(s.c1, s.c0, s.c3, s.c2),
          Diagonal(s.c2, s.c1, s.c0, s.c3), Diagonal(s.c3, s.c2, s.c1, s.c0))
  }

  function MixColumns(s: Block): Block {
    Block(MixColumn(s.c0), MixColumn(s.c1), MixColumn(s.c2), MixColumn(s.c3))
  }

  function InvMixColumns(s: Block): Block {
    Block(InvMixColumn(s.c0), InvMixColumn(s.c1), InvMixColumn(s.c2), InvMixColumn(s.c3))
  }

  function AddRoundKey(s: Block, k: Block): Block {
    Block(Xor32(s.c0, k.c0), Xor32(s.c1, k.c1), Xor32(s.c2, k.c2), Xor32(s.c3, k.c3))
  }

  lemma InvSubBytesOfSubBytes(s: Block)
    ensures InvSubBytes(SubBytes(s)) == s
  {
    hide SubWord, InvSubWord;
    InvSubOfSub(s.c0);
    InvSubOfSub(s.c1);
    InvSubOfSub(s.c2);
    InvSubOfSub(s.c3);
  }

  lemma DiagonalOfDiagonals(p: bv32, q: bv32, r: bv32, s: bv32)
    ensures Diagonal(Diagonal(p, q, r, s), Diagonal(s, p, q, r), Diagonal(r, s, p, q), Diagonal(q, r, s, p)) == p
  {
    hide B0, B1, B2, B3, Pack;
    BytesOfPack(B0(p), B1(q), B2(r), B3(s));
    BytesOfPack(B0(s), B1(p), B2(q), B3(r));
    BytesOfPack(B0(r), B1(s), B2(p), B3(q));
    BytesOfPack(B0(q), B1(r), B2(s), B3(p));
    PackOfBytes(p);
  }

  lemma InvShiftOfShift(s: Block)
    ensures InvShiftRows(ShiftRows(s)) == s
  {
    hide Diagonal;
    DiagonalOfDiagonals(s.c0, s.c1, s.c2, s.c3);
    DiagonalOfDiagonals(s.c1, s.c2, s.c3, s.c0);
    DiagonalOfDiagonals(s.c2, s.c3, s.c0, s.c1);
    DiagonalOfDiagonals(s.c3, s.c0, s.c1, s.c2);
  }

  lemma InvMixOfMix(w: bv32)
    ensures InvMixColumn(MixColumn(w)) == w
  {
    hide MixColumn, InvMixColumn;
    MixUndoneAll(w);
  }

  lemma XorTwice(v: bv32, w: bv32)
    ensures Xor32(Xor32(v, w), w) == v
  {}

  lemma AddRoundKeyTwice(s: Block, k: Block)
    ensures AddRoundKey(AddRoundKey(s, k), k) == s
  {
    hide Xor32;
    XorTwice(s.c0, k.c0);
    XorTwice(s.c1, k.c1);
    XorTwice(s.c2, k.c2);
    XorTwice(s.c3, k.c3);
  }

  /** A mixed column under a round key, unmixed, under the unmixed round key. */
  lemma UnmixKeyed(v: bv32, k: bv32)
    ensures Xor32(InvMixColumn(Xor32(MixColumn(v), k)), InvMixColumn(k)) == v
  {
    hide *;
    InvMixLinear(MixColumn(v), k);
    InvMixOfMix(v);
    XorTwice(v, InvMixColumn(k));
  }

  lemma UnmixKeyedColumns(s: Block, k: Block)
    ensures AddRoundKey(InvMixColumns(AddRoundKey(MixColumns(s), k)), InvMixColumns(k)) == s
  {
    hide MixColumn, InvMixColumn, Xor32;
    UnmixKeyed(s.c0, k.c0);
    UnmixKeyed(s.c1, k.c1);
    UnmixKeyed(s.c2, k.c2);
    UnmixKeyed(s.c3, k.c3);
  }

  // ----- key expansion, section 5.2 -----

  function RotWord(w: bv32): bv32 { Pack(B1(w), B2(w), B3(w), B0(w)) }

  /** The power of x in the round constant. */
  function RconByte(j: nat): bv8
    requires j >= 1
  {
    if j == 1 then 1 else XTime(RconByte(j - 1))
  }

  function KeyWord(key: seq<bv8>, i: nat): bv32
    requires |key| == 16
  {
    if i < 4 then Pack(key[4 * i], key[4 * i + 1], key[4 * i + 2], key[4 * i + 3])
    else if i % 4 == 0 then
      Xor32(KeyWord(key, i - 4), Xor32(SubWord(RotWord(KeyWord(key, i - 1))), Pack(RconByte(i / 4), 0, 0, 0)))
    else Xor32(KeyWord(key, i - 4), KeyWord(key, i - 1))
  }

  function RoundKey(key: seq<bv8>, r: nat): Block
    requires |key| == 16
  {
    Block(KeyWord(key, 4 * r), KeyWord(key, 4 * r + 1), KeyWord(key, 4 * r + 2), KeyWord(key, 4 * r + 3))
  }

  /** The round keys of the equivalent inverse cipher, in the order it uses them. */
  function DecRoundKey(key: seq<bv8>, r: nat): Block
    requires |key| == 16 && r <= 10
  {
    if r == 0 || r == 10 then RoundKey(key, 10 - r) else InvMixColumns(RoundKey(key, 10 - r))
  }

  // ----- ciphers -----

  function EncRound(s: Block, k: Block): Block {
    AddRoundKey(MixColumns(ShiftRows(SubBytes(s))), k)
  }

  /** The state of Cipher, section 5.1, after r rounds. */
  function EncRounds(key: seq<bv8>, input: Block, r: nat): Block
    requires |key| == 16
  {
    if r == 0 then AddRoundKey(input, RoundKey(key, 0))
    else EncRound(EncRounds(key, input, r - 1), RoundKey(key, r))
  }

  function Cipher(key: seq<bv8>, input: Block): Block
    requires |key| == 16
  {
    AddRoundKey(ShiftRows(SubBytes(EncRounds(key, input, 9))), RoundKey(key, 10))
  }

  /** The state of InvCipher, section 5.3, after r of its rounds. */
  function InvRounds(key: seq<bv8>, input: Block, r: nat): Block
    requires |key| == 16 && r <= 9
  {
    if r == 0 then AddRoundKey(input, RoundKey(key, 10))
    else InvMixColumns(AddRoundKey(InvSubBytes(InvShiftRows(InvRounds(key, input, r - 1))), RoundKey(key, 10 - r)))
  }

  function InvCipher(key: seq<bv8>, input: Block): Block
    requires |key| == 16
  {
    AddRoundKey(InvSubBytes(InvShiftRows(InvRounds(key, input, 9))), RoundKey(key, 0))
  }

  function DecRound(s: Block, k: Block): Block {
    AddRoundKey(InvMixColumns(InvShiftRows(InvSubBytes(s))), k)
  }

  /** The state of EqInvCipher, section 5.3.5, after r rounds. */
  function DecRounds(key: seq<bv8>, input: Block, r: nat): Block
    requires |key| == 16 && r <= 9
  {
    if r == 0 then AddRoundKey(input, DecRoundKey(key, 0))
    else DecRound(DecRounds(key, input, r - 1), DecRoundKey(key, r))
  }

  function EqInvCipher(key: seq<bv8>, input: Block): Block
    requires |key| == 16
  {
    AddRoundKey(InvShiftRows(InvSubBytes(DecRounds(key, input, 9))), DecRoundKey(key, 10))
  }

  // ----- decryption undoes encryption -----

  lemma SubBytesShiftRowsBack(s: Block)
    ensures InvShiftRows(InvSubBytes(ShiftRows(SubBytes(s)))) == s
  {
    hide *;
    SubShiftCommute(ShiftRows(SubBytes(s)));
    InvShiftOfShift(SubBytes(s));
    InvSubBytesOfSubBytes(s);
  }

  /** Bytewise substitution does not care where a byte is. */
  lemma SubShiftCommute(s: Block)
    ensures InvShiftRows(InvSubBytes(s)) == InvSubBytes(InvShiftRows(s))
  {
    hide InvSubWord, Diagonal;
    SubDiagonal(s.c0, s.c3, s.c2, s.c1);
    SubDiagonal(s.c1, s.c0, s.c3, s.c2);
    SubDiagonal(s.c2, s.c1, s.c0, s.c3);
    SubDiagonal(s.c3, s.c2, s.c1, s.c0);
  }

  lemma SubDiagonal(w: bv32, x: bv32, y: bv32, z: bv32)
    ensures Diagonal(InvSubWord(w), InvSubWord(x), InvSubWord(y), InvSubWord(z)) == InvSubWord(Diagonal(w, x, y, z))
  {
    hide B0, B1, B2, B3, Pack, InvSubByte;
    BytesOfPack(InvSubByte(B0(w)), InvSubByte(B1(w)), InvSubByte(B2(w)), InvSubByte(B3(w)));
    BytesOfPack(InvSubByte(B0(x)), InvSubByte(B1(x)), InvSubByte(B2(x)), InvSubByte(B3(x)));
    BytesOfPack(InvSubByte(B0(y)), InvSubByte(B1(y)), InvSubByte(B2(y)), InvSubByte(B3(y)));
    BytesOfPack(InvSubByte(B0(z)), InvSubByte(B1(z)), InvSubByte(B2(z)), InvSubByte(B3(z)));
    BytesOfPack(B0(w), B1(x), B2(y), B3(z));
  }

  /** Round by round, decryption of the ciphertext retraces encryption. */
  lemma {:induction false} DecRoundsRetrace(key: seq<bv8>, input: Block, r: nat)
    requires |key| == 16 && r <= 9
    ensures DecRounds(key, Cipher(key, input), r) == ShiftRows(SubBytes(EncRounds(key, input, 9 - r)))
  {
    hide SubBytes, ShiftRows, InvSubBytes, InvShiftRows, MixColumns, InvMixColumns, AddRoundKey, RoundKey;
    if r == 0 {
      AddRoundKeyTwice(ShiftRows(SubBytes(EncRounds(key, input, 9))), RoundKey(key, 10));
    } else {
      DecRoundsRetrace(key, input, r - 1);
      var s := EncRounds(key, input, 10 - r);
      var t := ShiftRows(SubBytes(EncRounds(key, input, 9 - r)));
      SubBytesShiftRowsBack(s);
      assert s == AddRoundKey(MixColumns(t), RoundKey(key, 10 - r));
      UnmixKeyedColumns(t, RoundKey(key, 10 - r));
    }
  }

  lemma EqInvCipherUndoesCipher(key: seq<bv8>, input: Block)
    requires |key| == 16
    ensures EqInvCipher(key, Cipher(key, input)) == input
  {
    hide SubBytes, ShiftRows, InvSubBytes, InvShiftRows, AddRoundKey, RoundKey, Cipher, DecRounds;
    DecRoundsRetrace(key, input, 9);
    SubBytesShiftRowsBack(EncRounds(key, input, 0));
    AddRoundKeyTwice(input, RoundKey(key, 0));
  }

  // ----- the equivalent inverse cipher is the inverse cipher -----

  lemma InvMixColumnsKeyed(s: Block, k: Block)
    ensures InvMixColumns(AddRoundKey(s, k)) == AddRoundKey(InvMixColumns(s), InvMixColumns(k))
  {
    hide InvMixColumn, Xor32;
    InvMixLinear(s.c0, k.c0);
    InvMixLinear(s.c1, k.c1);
    InvMixLinear(s.c2, k.c2);
    InvMixLinear(s.c3, k.c3);
  }

  lemma {:induction false} DecRoundsAreInvRounds(key: seq<bv8>, input: Block, r: nat)
    requires |key| == 16 && r <= 9
    ensures DecRounds(key, input, r) == InvRounds(key, input, r)
  {
    hide SubBytes, ShiftRows, InvSubBytes, InvShiftRows, MixColumns, InvMixColumns, AddRoundKey, RoundKey;
    if r > 0 {
      DecRoundsAreInvRounds(key, input, r - 1);
      var s := InvRounds(key, input, r - 1);
      SubShiftCommute(s);
      InvMixColumnsKeyed(InvSubBytes(InvShiftRows(s)), RoundKey(key, 10 - r));
    }
  }

  lemma EqInvCipherIsInvCipher(key: seq<bv8>, input: Block)
    requires |key| == 16
    ensures EqInvCipher(key, input) == InvCipher(key, input)
  {
    hide InvSubBytes, InvShiftRows, AddRoundKey, RoundKey, DecRounds, InvRounds;
    DecRoundsAreInvRounds(key, input, 9);
    SubShiftCommute(InvRounds(key, input, 9));
  }
}
