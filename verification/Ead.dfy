/** Keys, vectors and the in-place encryption of messages. */
module Ead {
  import opened AesField
  import opened AesSpec
  import opened Aes
  import opened EadMessages

  lemma BlockAtIs(a: array<bv8>, o: nat)
    requires o + 15 < a.Length
    ensures BlockAt(a, o) == BlockOf(a[o..o + 16])
  {
    hide Pack;
  }

  /** Body and rest of a buffer taken apart. */
  /** The body of the message whose payload and filler are in a buffer. */
  ghost function BodyOf(iv: nat, was: Bytes, len: nat): (body: Bytes)
    requires HeaderSize + len + PadOf(len) <= |was|
  {
    Body(iv, was[HeaderSize..HeaderSize + len], was[HeaderSize + len..HeaderSize + len + PadOf(len)])
  }

  /** The buffer with its header filled in and the hash field blank is the body
      and what was behind it. */
  lemma Assembled(iv: nat, was: Bytes, len: nat, buf: Bytes)
    requires HeaderSize + len + PadOf(len) <= |was|
    requires buf == Blank(Splice(Splice(was, 24, [Byte(PadOf(len))]), 20, PutIv(iv)))
    ensures var end := HeaderSize + len + PadOf(len);
      buf == BodyOf(iv, was, len) + was[end..] && buf[..Positive(end)] == BodyOf(iv, was, len)
  {
    HeaderAssembled(was, len, iv);
    hide PadOf, Body, Splice, Blank, PutIv, Byte;
  }

  lemma WholeUnits(len: nat)
    ensures Positive(HeaderSize + len + PadOf(len)) % PadUnit == 0
  {
    hide PadOf;
  }

  ghost function Blocks(len: nat): (n: nat)
    requires len % 16 == 0
    ensures len == 16 * n
  {
    len / 16
  }

  ghost function Units(len: nat): (n: nat)
    requires len % PadUnit == 0
    ensures len == PadUnit * n
  {
    len / PadUnit
  }

  lemma EmptyHash(h: Hash, s: Bytes)
    ensures HashAll(h, s[..0]) == h.start
  {
  }

  /** A buffer of which so many bytes have been encrypted. */
  ghost function EncryptedTo(key: Bytes, s: Bytes, done: nat): Bytes
    requires |key| == 16 && done <= |s|
  {
    EncryptAll(key, s[..done]) + s[done..]
  }

  /** One more block. */
  lemma EncryptedNext(key: Bytes, s: Bytes, done: nat)
    requires |key| == 16 && done + 16 <= |s|
    ensures var t := EncryptedTo(key, s, done);
      && |t| == |s|
      && EncryptedTo(key, s, done + 16) == Splice(t, done, BytesOf(Cipher(key, BlockOf(t[done..done + 16]))))
  {
    var front, next := EncryptAll(key, s[..done]), BytesOf(Cipher(key, BlockOf(s[done..done + 16])));
    assert EncryptedTo(key, s, done) == front + s[done..];
    assert EncryptedTo(key, s, done + 16) == EncryptAll(key, s[..done + 16]) + s[done + 16..];
    hide *;
    EncryptMore(key, s, done);
    SpliceNext(front, s, next);
  }

  lemma EncryptNone(key: Bytes, s: Bytes)
    requires |key| == 16
    ensures EncryptedTo(key, s, 0) == s
  {
  }

  /** A buffer of which so many bytes have been decrypted. */
  ghost function DecryptedTo(key: Bytes, s: Bytes, done: nat): Bytes
    requires |key| == 16 && done <= |s|
  {
    DecryptAll(key, s[..done]) + s[done..]
  }

  /** One more block. */
  lemma DecryptedNext(key: Bytes, s: Bytes, done: nat)
    requires |key| == 16 && done + 16 <= |s|
    ensures var t := DecryptedTo(key, s, done);
      && |t| == |s|
      && DecryptedTo(key, s, done + 16) == Splice(t, done, BytesOf(EqInvCipher(key, BlockOf(t[done..done + 16]))))
  {
    var front, next := DecryptAll(key, s[..done]), BytesOf(EqInvCipher(key, BlockOf(s[done..done + 16])));
    assert DecryptedTo(key, s, done) == front + s[done..];
    assert DecryptedTo(key, s, done + 16) == DecryptAll(key, s[..done + 16]) + s[done + 16..];
    hide *;
    DecryptMore(key, s, done);
    SpliceNext(front, s, next);
  }

  lemma DecryptNone(key: Bytes, s: Bytes)
    requires |key| == 16
    ensures DecryptedTo(key, s, 0) == s
  {
  }

  class Endpoint {
    const enc: array<bv32>
    const dec: array<bv32>
    const hash: Hash
    var rxIv: nat
    var txIv: nat
    var steps: nat
    var turn: nat
    ghost var key: Bytes

    /** Both key schedules belong to the key. */
    ghost predicate Valid()
      reads this, enc, dec
    {
      && enc != dec && enc.Length == 44 && dec.Length == 44 && |key| == 16
      && rxIv < IvWrap && txIv < IvWrap && turn < 16
      && Scheduled(enc, key) && ScheduledDec(dec, key)
    }

    ghost function View(): (s: Session)
      requires Valid()
      reads this, enc, dec
      ensures s.Valid()
    {
      Session(key, hash, txIv, rxIv, steps, turn)
    }

    /** What a session key of at least 40 bytes sets, after `turn` messages. */
    ghost function Keyed(skey: Bytes, turn: nat): Session
      requires |skey| >= 40
    {
      var iv := GetIv([0] + skey[33..36]);
      Session(skey[..16], hash, iv, iv, GetIv(skey[36..40]), turn)
    }

    /** Key, vectors and step word are the bytes at their places, the highest byte of
        the vectors aside. */
    lemma KeyedIs(skey: Bytes, turn: nat)
      requires |skey| >= 40
      ensures var s := Keyed(skey, turn);
        && s.key == skey[..16] && s.steps < IvWrap && PutIv(s.steps) == skey[36..40]
        && s.rx == s.tx < 0x100_0000 && PutIv(s.rx)[1..] == skey[33..36]
    {
      hide GetIv, PutIv;
      LowIv([0] + skey[33..36]);
      PutOfGet([0] + skey[33..36]);
      PutOfGet(skey[36..40]);
    }

    constructor (skey: Bytes, hash: Hash)
      requires |skey| >= 40
      ensures Valid() && fresh(enc) && fresh(dec)
      ensures this.hash == hash && View() == Keyed(skey, 0)
    {
      this.hash := hash;
      enc, dec := new bv32[44], new bv32[44];
      turn := 0;
      new;
      SetKey(skey);
    }

    /** The session key gives the cipher key, the first vector (its highest
        byte cleared) and the increments; the turn goes on. */
    method SetKey(skey: Bytes)
      requires |skey| >= 40 && enc != dec && enc.Length == 44 && dec.Length == 44 && turn < 16
      modifies this`key, this`rxIv, this`txIv, this`steps, enc, dec
      ensures Valid() && View() == Keyed(skey, turn) && rxIv == txIv < 0x100_0000
    {
      LowIv([0] + skey[33..36]);
      hide Scheduled, ScheduledDec, Pack, GetIv;
      key := skey[..16];
      KeySetupEnc(enc, skey[..16]);
      KeySetupDec(dec, skey[..16]);
      rxIv := GetIv([0] + skey[33..36]);
      txIv := rxIv;
      steps := GetIv(skey[36..40]);
    }

    method CheckRxIv(iv: nat) returns (ok: bool)
      requires Valid() && iv < IvWrap
      modifies this`rxIv
      ensures Valid() && ok == AcceptsIv(old(rxIv), iv)
      ensures View() == if ok then old(View()).(rx := iv) else old(View())
    {
      if iv <= rxIv {
        return false;
      }
      if iv > (rxIv + MaxIvIncr) % IvWrap {
        return false;
      }
      rxIv := iv;
      return true;
    }

    method GetTxIv() returns (iv: nat)
      requires Valid()
      modifies this`txIv, this`turn
      ensures Valid() && View() == NextTx(old(View())) && iv == View().tx
    {
      hide Scheduled, ScheduledDec;
      var ofs := Increment(steps, turn);
      turn := (turn + 1) % 16;
      txIv := (txIv + ofs) % IvWrap;
      return txIv;
    }

    /** The hash over `len` bytes with the hash field cleared. */
    method HashMessage(buf: array<bv8>, len: int) returns (digest: Digest)
      requires HeaderSize <= buf.Length && len <= buf.Length && Positive(len) % PadUnit == 0
      modifies buf
      ensures buf[..] == Blank(old(buf[..]))
      ensures digest == HashAll(hash, buf[..][..Positive(len)])
    {
      hide Blank, HashAll;
      ClearHash(buf);
      digest := HashUnits(buf, len, Units(Positive(len)));
    }

    method HashUnits(buf: array<bv8>, len: int, ghost units: nat) returns (digest: Digest)
      requires len <= buf.Length && Positive(len) == PadUnit * units
      ensures digest == HashAll(hash, buf[..][..Positive(len)])
    {
      hide HashAll;
      digest := hash.start;
      EmptyHash(hash, buf[..]);
      ghost var k := 0;
      var done := 0;
      while done < len
        invariant done == PadUnit * k && 0 <= k <= units
        invariant digest == HashAll(hash, buf[..][..done])
      {
        HashMore(hash, buf[..], done);
        digest := hash.step(digest, buf[..][done..done + PadUnit]);
        done := done + PadUnit;
        k := k + 1;
      }
    }

    method ClearHash(buf: array<bv8>)
      requires HeaderSize <= buf.Length
      modifies buf
      ensures buf[..] == Blank(old(buf[..]))
    {
      for i := 0 to HashSize
        invariant forall k :: 0 <= k < i ==> buf[k] == 0
        invariant buf[i..] == old(buf[i..])
      {
        buf[i] := 0;
      }
    }

    method EncryptBlocks(buf: array<bv8>, len: nat, ghost blocks: nat)
      requires Valid() && len <= buf.Length && len == 16 * blocks && |key| == 16
      modifies buf
      ensures Valid()
      ensures buf[..] == EncryptedTo(key, old(buf[..]), len)
    {
      hide *;
      EncryptNone(key, buf[..]);
      ghost var was, k := buf[..], 0;
      var done := 0;
      while done < len
        invariant Valid() && done == 16 * k && k <= blocks && |was| == buf.Length
        invariant buf[..] == EncryptedTo(key, was, done)
      {
        EncryptNext(buf, done, was);
        done := done + 16;
        k := k + 1;
      }
    }

    method EncryptNext(buf: array<bv8>, done: nat, ghost was: Bytes)
      requires Valid() && done + 16 <= buf.Length == |was| && |key| == 16
      requires buf[..] == EncryptedTo(key, was, done)
      modifies buf
      ensures Valid()
      ensures buf[..] == EncryptedTo(key, was, done + 16)
    {
      hide *;
      EncryptedNext(key, was, done);
      assert buf[done..done + 16] == buf[..][done..done + 16];
      EncryptBlock(buf, done);
    }

    method DecryptBlocks(buf: array<bv8>, len: nat, ghost blocks: nat)
      requires Valid() && len <= buf.Length && len == 16 * blocks && |key| == 16
      modifies buf
      ensures Valid()
      ensures buf[..] == DecryptedTo(key, old(buf[..]), len)
    {
      hide *;
      DecryptNone(key, buf[..]);
      ghost var was, k := buf[..], 0;
      var done := 0;
      while done < len
        invariant Valid() && done == 16 * k && k <= blocks && |was| == buf.Length
        invariant buf[..] == DecryptedTo(key, was, done)
      {
        DecryptNext(buf, done, was);
        done := done + 16;
        k := k + 1;
      }
    }

    method DecryptNext(buf: array<bv8>, done: nat, ghost was: Bytes)
      requires Valid() && done + 16 <= buf.Length == |was| && |key| == 16
      requires buf[..] == DecryptedTo(key, was, done)
      modifies buf
      ensures Valid()
      ensures buf[..] == DecryptedTo(key, was, done + 16)
    {
      hide *;
      DecryptedNext(key, was, done);
      assert buf[done..done + 16] == buf[..][done..done + 16];
      DecryptBlock(buf, done);
    }

    method EncryptBlock(buf: array<bv8>, o: nat)
      requires Valid() && o + 16 <= buf.Length
      modifies buf
      ensures Valid()
      ensures buf[..] == Splice(old(buf[..]), o, BytesOf(Cipher(key, BlockOf(old(buf[o..o + 16])))))
    {
      hide Scheduled, ScheduledDec, Cipher, BlockOf, BytesOf;
      BlockAtIs(buf, o);
      Encrypt(enc, buf, o, buf, o, key);
      BlockAtIs(buf, o);
      BytesOfBlock(buf[o..o + 16]);
      assert buf[..] == buf[..o] + buf[o..o + 16] + buf[o + 16..];
      assert buf[..o] == old(buf[..o]) && buf[o + 16..] == old(buf[o + 16..]);
    }

    method DecryptBlock(buf: array<bv8>, o: nat)
      requires Valid() && o + 16 <= buf.Length
      modifies buf
      ensures Valid()
      ensures buf[..] == Splice(old(buf[..]), o, BytesOf(EqInvCipher(key, BlockOf(old(buf[o..o + 16])))))
    {
      hide Scheduled, ScheduledDec, EqInvCipher, BlockOf, BytesOf;
      BlockAtIs(buf, o);
      Decrypt(dec, buf, o, buf, o, key);
      BlockAtIs(buf, o);
      BytesOfBlock(buf[o..o + 16]);
      assert buf[..] == buf[..o] + buf[o..o + 16] + buf[o + 16..];
      assert buf[..o] == old(buf[..o]) && buf[o + 16..] == old(buf[o + 16..]);
    }

    method PutHeader(buf: array<bv8>, at: nat, bytes: Bytes)
      requires at + |bytes| <= buf.Length
      modifies buf
      ensures buf[..] == Splice(old(buf[..]), at, bytes)
    {
      for i := 0 to |bytes|
        invariant forall k :: 0 <= k < buf.Length ==>
          buf[k] == if at <= k < at + i then bytes[k - at] else old(buf[k])
      {
        buf[at + i] := bytes[i];
      }
    }

    /** Puts the padding length and the next vector into the header. */
    method PutVector(buf: array<bv8>, pad: nat) returns (iv: nat)
      requires Valid() && HeaderSize <= buf.Length
      modifies this`txIv, this`turn, buf
      ensures Valid() && View() == NextTx(old(View())) && iv == View().tx
      ensures buf[..] == Splice(Splice(old(buf[..]), 24, [Byte(pad)]), 20, PutIv(iv))
    {
      assert 25 <= buf.Length;
      hide *;
      PutHeader(buf, 24, [Byte(pad)]);
      iv := GetTxIv();
      PutHeader(buf, 20, PutIv(iv));
    }

    /** Blanks the hash field of a filled-in header and hashes the body. */
    method HashBody(buf: array<bv8>, len: nat, ghost was: Bytes, ghost iv: nat) returns (digest: Digest)
      requires HeaderSize + len + PadOf(len) <= buf.Length == |was|
      requires buf[..] == Splice(Splice(was, 24, [Byte(PadOf(len))]), 20, PutIv(iv))
      modifies buf
      ensures buf[..] == BodyOf(iv, was, len) + was[HeaderSize + len + PadOf(len)..]
      ensures digest == HashAll(hash, BodyOf(iv, was, len))
    {
      hide Splice, Blank, PutIv, Byte, HashAll, PadOf, BodyOf;
      WholeUnits(len);
      digest := HashMessage(buf, HeaderSize + len + PadOf(len));
      Assembled(iv, was, len, buf[..]);
    }

    /** Puts padding length and vector in front of the payload and hashes the result. */
    method AssembleBody(buf: array<bv8>, len: nat) returns (enclen: nat, digest: Digest)
      requires Valid() && HeaderSize + len + PadOf(len) <= buf.Length
      modifies this`txIv, this`turn, buf
      ensures Valid() && View() == NextTx(old(View()))
      ensures enclen == HeaderSize + len + PadOf(len)
      ensures
        var was := old(buf[..]);
        var body := BodyOf(View().tx, was, len);
        buf[..] == body + was[enclen..] && digest == HashAll(hash, body)
    {
      hide BodyOf, Splice, PutIv, Byte, HashAll, PadOf, NextTx, Endpoint.Valid;
      ghost var was := buf[..];
      var pad := PadOf(len);
      var iv := PutVector(buf, pad);
      digest := HashBody(buf, len, was, iv);
      enclen := HeaderSize + len + pad;
    }

    /** Puts padding length, vector and hash in front of the payload. */
    method FrameMessage(buf: array<bv8>, len: nat) returns (enclen: nat)
      requires Valid() && HeaderSize + len + PadOf(len) <= buf.Length
      modifies this`txIv, this`turn, buf
      ensures Valid() && View() == NextTx(old(View()))
      ensures enclen == HeaderSize + len + PadOf(len)
      ensures
        var was := old(buf[..]);
        var body := Body(View().tx, was[HeaderSize..HeaderSize + len], was[HeaderSize + len..enclen]);
        buf[..] == Stamp(hash, body) + was[enclen..]
    {
      ghost var was := buf[..];
      hide Body, Splice, Blank, HashAll, PadOf, NextTx, Stamp, Endpoint.Valid;
      var digest;
      enclen, digest := AssembleBody(buf, len);
      ghost var payload, filler := was[HeaderSize..HeaderSize + len], was[HeaderSize + len..enclen];
      BodyIsBlank(View().tx, payload, filler);
      PutHeader(buf, 0, digest);
      HashAssembled(hash, BodyOf(View().tx, was, len), was[enclen..]);
    }

    /** Frames and encrypts the payload of `len` bytes behind the header space;
        returns the length put into the message. */
    method EncryptMessage(buf: array<bv8>, len: nat) returns (enclen: nat)
      requires Valid() && HeaderSize + len + PadOf(len) <= buf.Length
      modifies this`txIv, this`turn, buf
      ensures Valid() && View() == NextTx(old(View()))
      ensures enclen == HeaderSize + len + PadOf(len)
      ensures
        var was := old(buf[..]);
        var payload, filler := was[HeaderSize..HeaderSize + len], was[HeaderSize + len..enclen];
        buf[..] == Seal(old(View()), payload, filler) + was[enclen..]
    {
      hide PadOf, EncryptAll, NextTx, Stamp, Body, Scheduled, ScheduledDec;
      enclen := FrameMessage(buf, len);
      UnitsAreBlocks(enclen);
      EncryptBlocks(buf, enclen, Blocks(enclen));
    }

    /** Decrypts and checks a message in place; 0 if it is refused, otherwise
        the length of the payload. */
    method DecryptMessage(buf: array<bv8>, len: int) returns (n: int)
      requires Valid() && HeaderSize <= buf.Length && len <= buf.Length
      modifies this`rxIv, buf
      ensures Valid()
      ensures var o := Open(old(View()), old(buf[..]), len);
        && View() == o.session && buf[..] == o.buf
        && n == if o.result.Some? then o.result.value else 0
    {
      hide HashAll, DecryptAll, GetIv, Number, AcceptsIv, Scheduled, ScheduledDec;
      if len == 0 || Remainder(len, PadUnit) > 0 {
        return 0;
      }
      UnitsAreBlocks(Positive(len));
      ghost var was := buf[..];
      DecryptBlocks(buf, Positive(len), Blocks(Positive(len)));
      ghost var plain := DecryptFront(key, was, len);
      assert buf[..] == plain;
      if Number(buf[24]) >= PadUnit {
        return 0;
      }
      var ok := CheckRxIv(GetIv(buf[20..24]));
      assert buf[20..24] == plain[20..24];
      if !ok {
        return 0;
      }
      var oldHash := buf[..HashSize];
      assert oldHash == plain[..HashSize];
      var newHash := HashMessage(buf, len);
      assert buf[24] == plain[24];
      assert buf[..Positive(len)] == Blank(plain)[..Positive(len)];
      if oldHash != newHash {
        return 0;
      }
      n := len - (Number(buf[24]) + HeaderSize);
    }
  }
}
