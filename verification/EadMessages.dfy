/** The encrypted messages of the emergency access daemon, as sequences of bytes. */
module EadMessages {
  import opened Options
  import opened AesField
  import opened AesSpec

  const HashSize: nat := 20
  const HeaderSize: nat := 25
  const PadUnit: nat := 64
  const MaxIvIncr: nat := 128
  const IvWrap: nat := 0x1_0000_0000

  type Bytes = seq<bv8>

  type Digest = d: Bytes | |d| == 20 witness seq(20, _ => 0)

  /** The hash: its start value and its step over one unit of 64 bytes. */
  datatype Hash = Hash(start: Digest, step: (Digest, Bytes) -> Digest)

  // ----- numbers in network order -----

  datatype Nibble = Nibble(b3: bool, b2: bool, b1: bool, b0: bool)

  function Flag(on: bool, mask: bv8): bv8 {
    if on then mask else 0
  }

  function Join(h: Nibble, l: Nibble): bv8 {
    Flag(h.b3, 0x80) | Flag(h.b2, 0x40) | Flag(h.b1, 0x20) | Flag(h.b0, 0x10)
    | Flag(l.b3, 0x08) | Flag(l.b2, 0x04) | Flag(l.b1, 0x02) | Flag(l.b0, 0x01)
  }

  function High(x: bv8): Nibble {
    Nibble(x & 0x80 != 0, x & 0x40 != 0, x & 0x20 != 0, x & 0x10 != 0)
  }

  function Low(x: bv8): Nibble {
    Nibble(x & 0x08 != 0, x & 0x04 != 0, x & 0x02 != 0, x & 0x01 != 0)
  }

  function Digit(on: bool, worth: nat): nat {
    if on then worth else 0
  }

  function Value(b: Nibble): (n: nat)
    ensures n < 16
  {
    Digit(b.b3, 8) + Digit(b.b2, 4) + Digit(b.b1, 2) + Digit(b.b0, 1)
  }

  function Binary(n: nat): Nibble {
    Nibble(n >= 8, n % 8 >= 4, n % 4 >= 2, n % 2 == 1)
  }

  function Byte(n: nat): bv8 {
    Join(Binary(n / 16), Binary(n % 16))
  }

  function Number(x: bv8): (n: nat)
    ensures n < 256
  {
    hide Value, High, Low;
    16 * Value(High(x)) + Value(Low(x))
  }

  lemma NibblesOfJoin(h: Nibble, l: Nibble)
    ensures High(Join(h, l)) == h && Low(Join(h, l)) == l
  {
  }

  lemma ValueOfBinary(n: nat)
    requires n < 16
    ensures Value(Binary(n)) == n
  {
  }

  lemma NumberOfByte(n: nat)
    requires n < 256
    ensures Number(Byte(n)) == n
  {
    hide Join, High, Low, Value, Binary;
    NibblesOfJoin(Binary(n / 16), Binary(n % 16));
    ValueOfBinary(n / 16);
    ValueOfBinary(n % 16);
  }

  lemma JoinOfNibbles(x: bv8)
    ensures Join(High(x), Low(x)) == x
  {
  }

  lemma BinaryOfValue(b: Nibble)
    ensures Binary(Value(b)) == b
  {
  }

  lemma ByteOfNumber(x: bv8)
    ensures Byte(Number(x)) == x
  {
    hide Join, High, Low, Value, Binary;
    JoinOfNibbles(x);
    BinaryOfValue(High(x));
    BinaryOfValue(Low(x));
    assert Number(x) / 16 == Value(High(x)) && Number(x) % 16 == Value(Low(x));
  }

  function PutIv(iv: nat): (s: Bytes)
    ensures |s| == 4
  {
    [Byte(iv / 256 / 256 / 256), Byte(iv / 256 / 256 % 256), Byte(iv / 256 % 256), Byte(iv % 256)]
  }

  function GetIv(s: Bytes): (iv: nat)
    requires |s| == 4
    ensures iv < IvWrap
  {
    hide Number;
    ((Number(s[0]) * 256 + Number(s[1])) * 256 + Number(s[2])) * 256 + Number(s[3])
  }

  lemma GetOfPut(iv: nat)
    requires iv < IvWrap
    ensures GetIv(PutIv(iv)) == iv
  {
    hide Byte, Number;
    NumberOfByte(iv % 256);
    var q := iv / 256;
    NumberOfByte(q % 256);
    var r := q / 256;
    NumberOfByte(r % 256);
    NumberOfByte(r / 256);
  }

  lemma PutOfGet(s: Bytes)
    requires |s| == 4
    ensures PutIv(GetIv(s)) == s
  {
    hide Byte, Number;
    var iv := GetIv(s);
    ByteOfNumber(s[0]);
    ByteOfNumber(s[1]);
    ByteOfNumber(s[2]);
    ByteOfNumber(s[3]);
    var q := (Number(s[0]) * 256 + Number(s[1])) * 256 + Number(s[2]);
    var r := Number(s[0]) * 256 + Number(s[1]);
    assert iv / 256 == q && iv % 256 == Number(s[3]);
    assert q / 256 == r && q % 256 == Number(s[2]);
    assert r / 256 == Number(s[0]) && r % 256 == Number(s[1]);
  }

  /** A cleared highest byte leaves room at the end of the range. */
  lemma LowIv(s: Bytes)
    requires |s| == 4 && s[0] == 0
    ensures GetIv(s) < 0x100_0000
  {
    assert Number(0) == 0;
    hide Number;
  }

  // ----- block by block -----

  function BlockOf(s: Bytes): Block
    requires |s| == 16
  {
    Block(Pack(s[0], s[1], s[2], s[3]), Pack(s[4], s[5], s[6], s[7]),
          Pack(s[8], s[9], s[10], s[11]), Pack(s[12], s[13], s[14], s[15]))
  }

  function WordBytes(w: bv32): (s: Bytes)
    ensures |s| == 4
  {
    [B0(w), B1(w), B2(w), B3(w)]
  }

  function BytesOf(b: Block): (s: Bytes)
    ensures |s| == 16
  {
    WordBytes(b.c0) + WordBytes(b.c1) + WordBytes(b.c2) + WordBytes(b.c3)
  }

  lemma BytesOfBlock(s: Bytes)
    requires |s| == 16
    ensures BytesOf(BlockOf(s)) == s
  {
    BytesOfPack(s[0], s[1], s[2], s[3]);
    BytesOfPack(s[4], s[5], s[6], s[7]);
    BytesOfPack(s[8], s[9], s[10], s[11]);
    BytesOfPack(s[12], s[13], s[14], s[15]);
    hide Pack, B0, B1, B2, B3;
  }

  lemma BlockOfBytes(b: Block)
    ensures BlockOf(BytesOf(b)) == b
  {
    PackOfBytes(b.c0);
    PackOfBytes(b.c1);
    PackOfBytes(b.c2);
    PackOfBytes(b.c3);
    hide Pack, B0, B1, B2, B3;
  }

  /** Block by block; what is short of a block stays as it is. */
  function EncryptAll(key: Bytes, s: Bytes): (r: Bytes)
    requires |key| == 16
    ensures |r| == |s|
  {
    if |s| < 16 then s
    else EncryptAll(key, s[..|s| - 16]) + BytesOf(Cipher(key, BlockOf(s[|s| - 16..])))
  }

  function DecryptAll(key: Bytes, s: Bytes): (r: Bytes)
    requires |key| == 16
    ensures |r| == |s|
  {
    if |s| < 16 then s
    else DecryptAll(key, s[..|s| - 16]) + BytesOf(EqInvCipher(key, BlockOf(s[|s| - 16..])))
  }

  lemma EncryptMore(key: Bytes, s: Bytes, n: nat)
    requires |key| == 16 && n + 16 <= |s|
    ensures EncryptAll(key, s[..n + 16])
         == EncryptAll(key, s[..n]) + BytesOf(Cipher(key, BlockOf(s[n..n + 16])))
  {
    assert s[..n + 16][..n] == s[..n] && s[..n + 16][n..] == s[n..n + 16];
  }

  lemma DecryptMore(key: Bytes, s: Bytes, n: nat)
    requires |key| == 16 && n + 16 <= |s|
    ensures DecryptAll(key, s[..n + 16])
         == DecryptAll(key, s[..n]) + BytesOf(EqInvCipher(key, BlockOf(s[n..n + 16])))
  {
    assert s[..n + 16][..n] == s[..n] && s[..n + 16][n..] == s[n..n + 16];
  }

  lemma {:induction false} DecryptUndoesEncrypt(key: Bytes, s: Bytes)
    requires |key| == 16
    ensures DecryptAll(key, EncryptAll(key, s)) == s
  {
    hide Cipher, EqInvCipher, BlockOf, BytesOf;
    if |s| >= 16 {
      var front, last := s[..|s| - 16], s[|s| - 16..];
      var c := Cipher(key, BlockOf(last));
      assert EncryptAll(key, s)[..|s| - 16] == EncryptAll(key, front);
      assert EncryptAll(key, s)[|s| - 16..] == BytesOf(c);
      DecryptUndoesEncrypt(key, front);
      BlockOfBytes(c);
      EqInvCipherUndoesCipher(key, BlockOf(last));
      BytesOfBlock(last);
      assert s == front + last;
    }
  }

  /** The hash of whole units. */
  function HashAll(h: Hash, s: Bytes): Digest {
    if |s| < PadUnit then h.start else h.step(HashAll(h, s[..|s| - PadUnit]), s[|s| - PadUnit..])
  }

  lemma HashMore(h: Hash, s: Bytes, n: nat)
    requires n + PadUnit <= |s|
    ensures HashAll(h, s[..n + PadUnit]) == h.step(HashAll(h, s[..n]), s[n..n + PadUnit])
  {
    assert s[..n + PadUnit][..n] == s[..n] && s[..n + PadUnit][n..] == s[n..n + PadUnit];
  }

  /** Whole units that are different and hash alike contain a collision of the step. */
  lemma {:induction false} HashCollision(h: Hash, a: Bytes, b: Bytes)
    returns (d: Digest, u: Bytes, e: Digest, v: Bytes)
    requires |a| == |b| && |a| % PadUnit == 0 && a != b && HashAll(h, a) == HashAll(h, b)
    ensures |u| == |v| == PadUnit && (d, u) != (e, v) && h.step(d, u) == h.step(e, v)
    decreases |a|
  {
    assert |a| >= PadUnit;
    var n := |a| - PadUnit;
    d, u, e, v := HashAll(h, a[..n]), a[n..], HashAll(h, b[..n]), b[n..];
    if (d, u) == (e, v) {
      assert a == a[..n] + a[n..] && b == b[..n] + b[n..];
      d, u, e, v := HashCollision(h, a[..n], b[..n]);
    }
  }

  // ----- initialization vectors -----

  /** One end of a conversation. */
  datatype Session = Session(key: Bytes, hash: Hash, tx: nat, rx: nat, steps: nat, turn: nat)
  {
    predicate Valid() {
      |key| == 16 && tx < IvWrap && rx < IvWrap && turn < 16
    }
  }

  /** Shifted right by two bits at each turn. */
  function Shifted(steps: nat, turn: nat): nat
    decreases turn
  {
    if turn == 0 then steps else Shifted(steps, turn - 1) / 4
  }

  /** The last two bits of the step word at its turn, and one. */
  function Increment(steps: nat, turn: nat): (n: nat)
    ensures 1 <= n <= 4
  {
    1 + Shifted(steps, turn) % 4
  }

  /** The sender after drawing the next vector, which is its `tx`. */
  function NextTx(s: Session): (r: Session)
    requires s.Valid()
    ensures r.Valid() && r == s.(tx := r.tx, turn := r.turn)
  {
    hide Increment;
    s.(tx := (s.tx + Increment(s.steps, s.turn)) % IvWrap, turn := (s.turn + 1) % 16)
  }

  /** The number whose base-four digits, from turn t on, are one less than the k
      increments. */
  function Spelled(steps: nat, t: nat, k: nat): nat
    decreases k
  {
    if k == 0 then 0 else (Increment(steps, t) - 1) + 4 * Spelled(steps, t + 1, k - 1)
  }

  lemma {:induction false} SpelledIs(steps: nat, t: nat, k: nat)
    requires Shifted(steps, t + k) == 0
    ensures Spelled(steps, t, k) == Shifted(steps, t)
    decreases k
  {
    if k > 0 {
      SpelledIs(steps, t + 1, k - 1);
    }
  }

  function Power4(k: nat): nat {
    if k == 0 then 1 else 4 * Power4(k - 1)
  }

  lemma {:induction false} ShiftedOut(steps: nat, t: nat, k: nat)
    requires Shifted(steps, t) < Power4(k)
    ensures Shifted(steps, t + k) == 0
    decreases k
  {
    if k > 0 {
      ShiftedOut(steps, t + 1, k - 1);
    }
  }

  lemma SixteenPlaces()
    ensures Power4(16) == IvWrap
  {
    assert Power4(4) == 256;
    assert Power4(8) == 65536;
    assert Power4(12) == 16777216;
  }

  /** The sixteen increments spell out the step word: no two words give the same
      increments. */
  lemma StepsFromIncrements(steps: nat)
    requires steps < IvWrap
    ensures Spelled(steps, 0, 16) == steps
  {
    SixteenPlaces();
    hide Power4, Spelled;
    ShiftedOut(steps, 0, 16);
    SpelledIs(steps, 0, 16);
  }

  /** The sum of the next k increments. */
  function Advance(steps: nat, turn: nat, k: nat): nat
    requires turn < 16
    decreases k
  {
    if k == 0 then 0 else Increment(steps, turn) + Advance(steps, (turn + 1) % 16, k - 1)
  }

  /** The sender after k vectors. */
  function AfterSends(s: Session, k: nat): (r: Session)
    requires s.Valid()
    ensures r.Valid()
    decreases k
  {
    if k == 0 then s else AfterSends(NextTx(s), k - 1)
  }

  /** Vectors grow by the increments in turn, around and around. */
  lemma {:induction false} AfterSendsIs(s: Session, k: nat)
    requires s.Valid()
    ensures AfterSends(s, k) == s.(tx := (s.tx + Advance(s.steps, s.turn, k)) % IvWrap, turn := (s.turn + k) % 16)
    decreases k
  {
    hide Increment;
    if k > 0 {
      AfterSendsIs(NextTx(s), k - 1);
      var n := Advance(s.steps, (s.turn + 1) % 16, k - 1);
      WrapTwice(s.tx + Increment(s.steps, s.turn), n);
      TurnTwice(s.turn + 1, k - 1);
    }
  }

  lemma WrapTwice(a: nat, b: nat)
    ensures (a % IvWrap + b) % IvWrap == (a + b) % IvWrap
  {
    var x := a % IvWrap + b;
    assert a + b == IvWrap * (a / IvWrap + x / IvWrap) + x % IvWrap;
  }

  lemma TurnTwice(a: nat, b: nat)
    ensures (a % 16 + b) % 16 == (a + b) % 16
  {
    var x := a % 16 + b;
    assert a + b == 16 * (a / 16 + x / 16) + x % 16;
  }

  predicate AcceptsIv(rx: nat, iv: nat) {
    !(iv <= rx) && !(iv > (rx + MaxIvIncr) % IvWrap)
  }

  /** The window of acceptable vectors closes for good near the end of the
      range, where its upper end wraps around. */
  lemma AcceptsIvIff(rx: nat, iv: nat)
    requires rx < IvWrap && iv < IvWrap
    ensures AcceptsIv(rx, iv) <==> rx < iv <= rx + MaxIvIncr && rx + MaxIvIncr < IvWrap
  {
  }

  // ----- whole messages -----

  function PadOf(len: nat): (pad: nat)
    ensures pad < PadUnit && (HeaderSize + len + pad) % PadUnit == 0
  {
    (PadUnit - (len + HeaderSize) % PadUnit) % PadUnit
  }

  const Zeros: Bytes := [0, 0, 0, 0, 0, 0, 0, 0, 0, 0, 0, 0, 0, 0, 0, 0, 0, 0, 0, 0]

  /** A message with its hash field cleared. */
  function Blank(s: Bytes): (r: Bytes)
    requires |s| >= HashSize
    ensures |r| == |s|
  {
    Zeros + s[HashSize..]
  }

  function Body(iv: nat, payload: Bytes, filler: Bytes): (r: Bytes)
    requires |filler| == PadOf(|payload|)
    ensures |r| == HeaderSize + |payload| + |filler| && |r| % PadUnit == 0
  {
    Zeros + PutIv(iv) + [Byte(PadOf(|payload|))] + payload + filler
  }

  function Stamp(h: Hash, body: Bytes): (r: Bytes)
    requires |body| >= HeaderSize
    ensures |r| == |body|
  {
    HashAll(h, Blank(body)) + body[HashSize..]
  }

  lemma UnitsAreBlocks(n: nat)
    requires n % PadUnit == 0
    ensures n % 16 == 0
  {
  }

  /** The bytes sent for a payload, the filler being what was in the buffer. */
  function Seal(s: Session, payload: Bytes, filler: Bytes): (wire: Bytes)
    requires s.Valid() && |filler| == PadOf(|payload|)
    ensures |wire| == HeaderSize + |payload| + |filler| && |wire| % PadUnit == 0
  {
    EncryptAll(s.key, Stamp(s.hash, Body(NextTx(s).tx, payload, filler)))
  }

  /** Refused, or accepted with a length; and what happened to the buffer and
      to the receiver. */
  datatype Opened = Opened(result: Option<int>, buf: Bytes, session: Session)

  /** The remainder of C for a positive divisor. */
  function Remainder(a: int, b: int): int
    requires b > 0
  {
    if a >= 0 then a % b else -((-a) % b)
  }

  function Positive(len: int): nat {
    if len > 0 then len else 0
  }

  function DecryptFront(key: Bytes, buf: Bytes, len: int): (plain: Bytes)
    requires |key| == 16 && len <= |buf|
    ensures |plain| == |buf|
  {
    DecryptAll(key, buf[..Positive(len)]) + buf[Positive(len)..]
  }

  function Open(s: Session, buf: Bytes, len: int): (o: Opened)
    requires s.Valid() && HeaderSize <= |buf| && len <= |buf|
    ensures o.session.Valid() && |o.buf| == |buf|
  {
    if len == 0 || Remainder(len, PadUnit) > 0 then Opened(None, buf, s)
    else
      var plain := DecryptFront(s.key, buf, len);
      var pad := Number(plain[24]);
      var iv := GetIv(plain[20..24]);
      if pad >= PadUnit || !AcceptsIv(s.rx, iv) then Opened(None, plain, s)
      else
        var blank := Blank(plain);
        var good := plain[..HashSize] == HashAll(s.hash, blank[..Positive(len)]);
        Opened(if good then Some(len - (pad + HeaderSize)) else None, blank, s.(rx := iv))
  }

  // ----- in place -----

  function Splice(s: Bytes, at: nat, bytes: Bytes): (r: Bytes)
    requires at + |bytes| <= |s|
    ensures |r| == |s|
  {
    s[..at] + bytes + s[at + |bytes|..]
  }

  /** Working through a buffer from the front. */
  lemma SpliceNext(front: Bytes, s: Bytes, next: Bytes)
    requires |front| + |next| <= |s|
    ensures var n, buf := |front|, front + s[|front|..];
      && buf[n..n + |next|] == s[n..n + |next|]
      && Splice(buf, n, next) == (front + next) + s[n + |next|..]
  {
  }

  /** The header fields put in front of a payload make up the body. */
  lemma HeaderAssembled(s: Bytes, len: nat, iv: nat)
    requires HeaderSize + len + PadOf(len) <= |s|
    ensures
      var end := HeaderSize + len + PadOf(len);
      Blank(Splice(Splice(s, 24, [Byte(PadOf(len))]), 20, PutIv(iv)))
        == Body(iv, s[HeaderSize..HeaderSize + len], s[HeaderSize + len..end]) + s[end..]
  {
    var end := HeaderSize + len + PadOf(len);
    var iv4, pad := PutIv(iv), [Byte(PadOf(len))];
    var payload, filler, rest := s[HeaderSize..HeaderSize + len], s[HeaderSize + len..end], s[end..];
    var one := Splice(s, 24, pad);
    var two := Splice(one, 20, iv4);
    SpliceTail(s, 24, pad);
    SpliceTail(one, 20, iv4);
    assert one[24..] == pad + s[25..];
    assert two[20..] == iv4 + one[24..];
    assert s[25..] == payload + filler + rest;
    assert Body(iv, payload, filler) == Zeros + iv4 + pad + payload + filler;
    assert Blank(two) == Zeros + two[20..];
    hide *;
    SixPieces(Zeros, iv4, pad, payload, filler, rest);
  }

  lemma SixPieces(a: Bytes, b: Bytes, c: Bytes, d: Bytes, e: Bytes, f: Bytes)
    ensures a + (b + (c + (d + e + f))) == a + b + c + d + e + f
  {
  }

  lemma SpliceTail(s: Bytes, at: nat, bytes: Bytes)
    requires at + |bytes| <= |s|
    ensures Splice(s, at, bytes)[at..] == bytes + s[at + |bytes|..]
  {
  }

  lemma HashAssembled(h: Hash, body: Bytes, rest: Bytes)
    requires |body| >= HeaderSize && Blank(body) == body
    ensures Splice(body + rest, 0, HashAll(h, body)) == Stamp(h, body) + rest
  {
    hide HashAll;
  }

  lemma BodyIsBlank(iv: nat, payload: Bytes, filler: Bytes)
    requires |filler| == PadOf(|payload|)
    ensures Blank(Body(iv, payload, filler)) == Body(iv, payload, filler)
  {
    hide PadOf, Byte, PutIv;
  }
}
