/** Arithmetic in the field of FIPS 197 (section 4.2) and the AES substitution
    boxes and column mixing defined with it. */
module AesField {
  import opened AesTables

  // ----- words and their bytes -----

  function B0(w: bv32): bv8 { ((w >> 24) & 0xff) as bv8 }
  function B1(w: bv32): bv8 { ((w >> 16) & 0xff) as bv8 }
  function B2(w: bv32): bv8 { ((w >> 8) & 0xff) as bv8 }
  function B3(w: bv32): bv8 { (w & 0xff) as bv8 }

  function Pack(a: bv8, b: bv8, c: bv8, d: bv8): bv32 {
    ((a as bv32) << 24) ^ ((b as bv32) << 16) ^ ((c as bv32) << 8) ^ (d as bv32)
  }

  // Named, so that steps can be checked without looking at single bits.
  function Xor8(a: bv8, b: bv8): bv8 { a ^ b }
  function Xor32(v: bv32, w: bv32): bv32 { v ^ w }

  lemma BytesOfPack(a: bv8, b: bv8, c: bv8, d: bv8)
    ensures B0(Pack(a, b, c, d)) == a && B1(Pack(a, b, c, d)) == b
    ensures B2(Pack(a, b, c, d)) == c && B3(Pack(a, b, c, d)) == d
  {}

  lemma PackOfBytes(w: bv32)
    ensures Pack(B0(w), B1(w), B2(w), B3(w)) == w
  {}

  // ----- the field -----

  /** Multiplication by x, section 4.2.1. */
  function XTime(b: bv8): bv8 {
    (b << 1) ^ (if b & 0x80 != 0 then 0x1b else 0)
  }

  function Times4(b: bv8): bv8 { XTime(XTime(b)) }
  function Times8(b: bv8): bv8 { XTime(XTime(XTime(b))) }
  function Times3(b: bv8): bv8 { Xor8(XTime(b), b) }
  function Times9(b: bv8): bv8 { Xor8(Times8(b), b) }
  function TimesB(b: bv8): bv8 { Xor8(Xor8(Times8(b), XTime(b)), b) }
  function TimesD(b: bv8): bv8 { Xor8(Xor8(Times8(b), Times4(b)), b) }
  function TimesE(b: bv8): bv8 { Xor8(Xor8(Times8(b), Times4(b)), XTime(b)) }

  /** Multiplication of two bytes, section 4.2. */
  function Mul(a: bv8, b: bv8): bv8 {
    var a1 := XTime(a);
    var a2 := XTime(a1);
    var a3 := XTime(a2);
    var a4 := XTime(a3);
    var a5 := XTime(a4);
    var a6 := XTime(a5);
    var a7 := XTime(a6);
    (if b & 0x01 != 0 then a else 0) ^ (if b & 0x02 != 0 then a1 else 0)
    ^ (if b & 0x04 != 0 then a2 else 0) ^ (if b & 0x08 != 0 then a3 else 0)
    ^ (if b & 0x10 != 0 then a4 else 0) ^ (if b & 0x20 != 0 then a5 else 0)
    ^ (if b & 0x40 != 0 then a6 else 0) ^ (if b & 0x80 != 0 then a7 else 0)
  }

  function RotateLeft(b: bv8, n: bv8): bv8
    requires 1 <= n <= 7
  {
    (b << n) | (b >> (8 - n))
  }

  /** The affine part of the substitution box, section 5.1.1. */
  function Affine(b: bv8): bv8 {
    b ^ RotateLeft(b, 1) ^ RotateLeft(b, 2) ^ RotateLeft(b, 3) ^ RotateLeft(b, 4) ^ 0x63
  }

  function InvAffine(b: bv8): bv8 {
    RotateLeft(b, 1) ^ RotateLeft(b, 3) ^ RotateLeft(b, 6) ^ 0x05
  }

  lemma AffineOfInvAffine(b: bv8)
    ensures Affine(InvAffine(b)) == b
  {}

  /** The substitution box maps x to the affine image of its multiplicative
      inverse, and zero to the affine image of zero. */
  ghost predicate IsSubstitute(x: bv8, y: bv8) {
    if x == 0 then y == Affine(0) else exists z: bv8 :: Mul(x, z) == 1 && y == Affine(z)
  }

  // ----- substitution -----

  function SubByte(x: bv8): bv8 { B2(Te0(x)) }
  function InvSubByte(x: bv8): bv8 { Td4s(x) }

  lemma Te0Bytes(x: bv8)
    ensures var w := Te0(x); B0(w) == XTime(B2(w)) && B1(w) == B2(w) && B3(w) == Times3(B2(w))
  {
  }

  /** The encryption table holds the multiples 02, 01, 01, 03 of the substitute. */
  lemma Te0Entry(x: bv8)
    ensures var s := SubByte(x); Te0(x) == Pack(XTime(s), s, s, Times3(s))
  {
    Te0Bytes(x);
    PackOfBytes(Te0(x));
    hide Te0, XTime, Times3, Pack, B0, B1, B2, B3;
  }

  lemma Td0Low(x: bv8)
    requires x < 0x80
    ensures var (w, s) := (Td0(x), InvSubByte(x));
      B0(w) == TimesE(s) && B1(w) == Times9(s) && B2(w) == TimesD(s) && B3(w) == TimesB(s)
  {
  }

  lemma Td0High(x: bv8)
    requires 0x80 <= x
    ensures var (w, s) := (Td0(x), InvSubByte(x));
      B0(w) == TimesE(s) && B1(w) == Times9(s) && B2(w) == TimesD(s) && B3(w) == TimesB(s)
  {
  }

  /** The decryption table holds the multiples 0e, 09, 0d, 0b of the inverse substitute. */
  lemma Td0Entry(x: bv8)
    ensures var s := InvSubByte(x); Td0(x) == Pack(TimesE(s), Times9(s), TimesD(s), TimesB(s))
  {
    if x < 0x80 {
      Td0Low(x);
    } else {
      Td0High(x);
    }
    PackOfBytes(Td0(x));
    hide Td0, InvSubByte, TimesE, Times9, TimesD, TimesB, Pack, B0, B1, B2, B3;
  }

  lemma SubByteThenBack(x: bv8)
    ensures InvSubByte(SubByte(x)) == x
  {
  }

  predicate Inverts(x: bv8) {
    if x == 0 then SubByte(x) == Affine(0) else Mul(x, InvAffine(SubByte(x))) == 1
  }

  lemma InvertsLow(x: bv8)
    requires x < 0x80
    ensures Inverts(x)
  {
  }

  lemma InvertsHigh(x: bv8)
    requires 0x80 <= x
    ensures Inverts(x)
  {
  }

  /** The byte in the middle of the encryption table is the substitution box of
      section 5.1.1. */
  lemma SubByteIsSubstitute(x: bv8)
    ensures IsSubstitute(x, SubByte(x))
  {
    hide SubByte;
    if x < 0x80 {
      InvertsLow(x);
    } else {
      InvertsHigh(x);
    }
    AffineOfInvAffine(SubByte(x));
  }
}
