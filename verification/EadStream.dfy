/** What a receiver makes of the messages of a sender, and of anything else. */
module EadStream {
  import opened Options
  import opened EadMessages

  ghost predicate Paired(s: Session, r: Session) {
    s.Valid() && r.Valid() && s.key == r.key && s.hash == r.hash
  }

  /** The fields behind the hash. */
  function Fields(iv: nat, payload: Bytes, filler: Bytes): (r: Bytes)
    requires |filler| == PadOf(|payload|)
    ensures |r| == 5 + |payload| + |filler|
  {
    PutIv(iv) + [Byte(PadOf(|payload|))] + payload + filler
  }

  lemma BodyIsZerosAndFields(iv: nat, payload: Bytes, filler: Bytes)
    requires |filler| == PadOf(|payload|)
    ensures Body(iv, payload, filler) == Zeros + Fields(iv, payload, filler)
    ensures Body(iv, payload, filler)[HashSize..] == Fields(iv, payload, filler)
  {
    hide PadOf, PutIv, Byte;
  }

  /** A piece of what stands behind something. */
  lemma PieceBehind(front: Bytes, fields: Bytes, from: nat, to: nat)
    requires from <= to <= |fields|
    ensures (front + fields)[|front| + from..|front| + to] == fields[from..to]
  {
  }

  lemma FieldPieces(iv: nat, payload: Bytes, filler: Bytes)
    requires |filler| == PadOf(|payload|)
    ensures var fields := Fields(iv, payload, filler);
      && fields[0..4] == PutIv(iv) && fields[4] == Byte(PadOf(|payload|)) && fields[5..5 + |payload|] == payload
  {
    hide PadOf, PutIv, Byte;
  }

  lemma ReadFields(front: Bytes, iv: nat, payload: Bytes, filler: Bytes)
    requires |front| == HashSize && iv < IvWrap && |filler| == PadOf(|payload|)
    ensures var s := front + Fields(iv, payload, filler);
      && GetIv(s[20..24]) == iv && Number(s[24]) == PadOf(|payload|)
      && s[HeaderSize..HeaderSize + |payload|] == payload
  {
    hide Fields, PadOf, PutIv, Byte, GetIv, Number;
    var fields := Fields(iv, payload, filler);
    FieldPieces(iv, payload, filler);
    PieceBehind(front, fields, 0, 4);
    PieceBehind(front, fields, 5, 5 + |payload|);
    GetOfPut(iv);
    NumberOfByte(PadOf(|payload|));
  }

  lemma HeaderFields(iv: nat, payload: Bytes, filler: Bytes, h: Hash)
    requires iv < IvWrap && |filler| == PadOf(|payload|)
    ensures var body := Body(iv, payload, filler); var plain := Stamp(h, body);
      && Blank(body) == body && Blank(plain) == body
      && plain[..HashSize] == HashAll(h, body)
      && GetIv(plain[20..24]) == iv && Number(plain[24]) == PadOf(|payload|)
      && body[HeaderSize..HeaderSize + |payload|] == payload
      && plain[HeaderSize..HeaderSize + |payload|] == payload
  {
    hide Body, Fields, GetIv, HashAll, Number, PadOf;
    var body := Body(iv, payload, filler);
    var plain := Stamp(h, body);
    BodyIsZerosAndFields(iv, payload, filler);
    BodyIsBlank(iv, payload, filler);
    ReadFields(Zeros, iv, payload, filler);
    ReadFields(HashAll(h, body), iv, payload, filler);
    assert plain == HashAll(h, body) + Fields(iv, payload, filler);
    assert plain[HashSize..] == Fields(iv, payload, filler);
  }

  /** A message is accepted exactly if its vector is acceptable, with its own
      length, and its payload is where it was before it was encrypted. */
  lemma OpenOfSeal(s: Session, r: Session, payload: Bytes, filler: Bytes, tail: Bytes)
    requires Paired(s, r) && |filler| == PadOf(|payload|)
    ensures var wire := Seal(s, payload, filler); var o := Open(r, wire + tail, |wire|);
      var accepted := AcceptsIv(r.rx, NextTx(s).tx);
      && o.result == (if accepted then Some(|payload|) else None)
      && o.buf[HeaderSize..HeaderSize + |payload|] == payload
      && o.buf[|wire|..] == tail
      && o.session == if accepted then r.(rx := NextTx(s).tx) else r
  {
    hide EncryptAll, DecryptAll, HashAll, Body, Stamp, Blank, GetIv, Number, PadOf, AcceptsIv, NextTx;
    var iv := NextTx(s).tx;
    var body := Body(iv, payload, filler);
    var plain := Stamp(s.hash, body);
    var wire := Seal(s, payload, filler);
    var buf := wire + tail;
    DecryptUndoesEncrypt(s.key, plain);
    HeaderFields(iv, payload, filler, s.hash);
    assert buf[..|wire|] == wire && buf[|wire|..] == tail;
    assert DecryptFront(r.key, buf, |wire|) == plain + tail;
    BlankFront(plain, tail);
    assert (plain + tail)[..HashSize] == plain[..HashSize];
    assert (plain + tail)[20..24] == plain[20..24];
    assert (body + tail)[..|wire|] == body;
    assert (plain + tail)[HeaderSize..HeaderSize + |payload|] == payload;
  }

  lemma BlankFront(s: Bytes, tail: Bytes)
    requires |s| >= HashSize
    ensures Blank(s + tail) == Blank(s) + tail
  {
  }

  // ----- streams with losses -----

  datatype RawSent = Sent(payload: Bytes, filler: Bytes, arrives: bool)

  /** A message whose filler brings it to a whole number of units. */
  type Sent = m: RawSent | |m.filler| == PadOf(|m.payload|) witness Sent(Empty[..39], [], true)

  const Empty: Bytes := Zeros + Zeros

  /** Fewer than a quarter of the window is lost in a row, `missed` counting the
      losses up to now. */
  predicate FewLosses(missed: nat, ms: seq<Sent>)
    decreases |ms|
  {
    ms != [] ==>
      if ms[0].arrives then FewLosses(0, ms[1..])
      else missed + 1 < MaxIvIncr / 4 && FewLosses(missed + 1, ms[1..])
  }

  /** Whenever a message arrives, the window above the last accepted vector does
      not reach beyond the end of the range. */
  predicate WindowOpen(s: Session, rx: nat, ms: seq<Sent>)
    requires s.Valid()
    decreases |ms|
  {
    ms != [] ==>
      if ms[0].arrives then rx + MaxIvIncr < IvWrap && WindowOpen(NextTx(s), NextTx(s).tx, ms[1..])
      else WindowOpen(NextTx(s), rx, ms[1..])
  }

  /** Every message that arrives is accepted and yields its payload. */
  ghost predicate AllUnderstood(s: Session, r: Session, ms: seq<Sent>)
    requires Paired(s, r)
    decreases |ms|
  {
    ms == [] ||
    var m := ms[0];
    if !m.arrives then AllUnderstood(NextTx(s), r, ms[1..])
    else
      var wire := Seal(s, m.payload, m.filler);
      var o := Open(r, wire, |wire|);
      && o.result == Some(|m.payload|)
      && o.buf[HeaderSize..HeaderSize + |m.payload|] == m.payload
      && Paired(NextTx(s), o.session) && AllUnderstood(NextTx(s), o.session, ms[1..])
  }

  /** Every message that arrives carries a vector above the last accepted one, by at
      most the window, and the window does not reach beyond the end of the range. */
  predicate InWindow(s: Session, rx: nat, ms: seq<Sent>)
    requires s.Valid()
    decreases |ms|
  {
    ms != [] ==>
      var iv := NextTx(s).tx;
      if ms[0].arrives then rx < iv <= rx + MaxIvIncr < IvWrap && InWindow(NextTx(s), iv, ms[1..])
      else InWindow(NextTx(s), rx, ms[1..])
  }

  /** What becomes of one message. */
  lemma Received(s: Session, r: Session, m: Sent)
    requires Paired(s, r)
    ensures var (wire, iv) := (Seal(s, m.payload, m.filler), NextTx(s).tx);
      var o, accepted := Open(r, wire, |wire|), r.rx < iv <= r.rx + MaxIvIncr < IvWrap;
      && o.result == (if accepted then Some(|m.payload|) else None)
      && o.session == (if accepted then r.(rx := iv) else r)
      && o.buf[HeaderSize..HeaderSize + |m.payload|] == m.payload
  {
    hide Seal, Open;
    var wire := Seal(s, m.payload, m.filler);
    AcceptsIvIff(r.rx, NextTx(s).tx);
    OpenOfSeal(s, r, m.payload, m.filler, []);
    assert wire + [] == wire;
  }

  /** With equal keys and in-order delivery, whatever is lost, every message that
      arrives is understood if and only if its vector is in the window. */
  lemma {:induction false} UnderstoodIff(s: Session, r: Session, ms: seq<Sent>)
    requires Paired(s, r)
    ensures AllUnderstood(s, r, ms) <==> InWindow(s, r.rx, ms)
    decreases |ms|
  {
    hide Seal, Open, NextTx;
    if ms != [] {
      Received(s, r, ms[0]);
      if !ms[0].arrives {
        UnderstoodIff(NextTx(s), r, ms[1..]);
      } else if AcceptsIv(r.rx, NextTx(s).tx) {
        AcceptsIvIff(r.rx, NextTx(s).tx);
        UnderstoodIff(NextTx(s), r.(rx := NextTx(s).tx), ms[1..]);
      } else {
        AcceptsIvIff(r.rx, NextTx(s).tx);
      }
    }
  }

  /** None of the messages that arrive is accepted. */
  ghost predicate AllRefused(s: Session, r: Session, ms: seq<Sent>)
    requires Paired(s, r)
    decreases |ms|
  {
    ms == [] ||
    var m := ms[0];
    var wire := Seal(s, m.payload, m.filler);
    && (m.arrives ==> Open(r, wire, |wire|).result.None? && Open(r, wire, |wire|).session == r)
    && AllRefused(NextTx(s), r, ms[1..])
  }

  /** Once the window reaches beyond the end of the range nothing is accepted any more. */
  lemma {:induction false} WindowClosed(s: Session, r: Session, ms: seq<Sent>)
    requires Paired(s, r) && r.rx + MaxIvIncr >= IvWrap
    ensures AllRefused(s, r, ms)
    decreases |ms|
  {
    hide Seal, Open, NextTx;
    if ms != [] {
      Received(s, r, ms[0]);
      WindowClosed(NextTx(s), r, ms[1..]);
    }
  }

  // ----- streams with few losses -----

  /** Each loss lets the sender get ahead by at most four. */
  predicate InStep(s: Session, rx: nat, missed: nat) {
    s.Valid() && rx <= s.tx <= rx + 4 * missed
  }

  lemma NextInStep(s: Session, rx: nat, missed: nat)
    requires InStep(s, rx, missed) && missed < MaxIvIncr / 4 && rx + MaxIvIncr < IvWrap
    ensures InStep(NextTx(s), rx, missed + 1) && InStep(NextTx(s), NextTx(s).tx, 0)
    ensures rx < NextTx(s).tx <= rx + MaxIvIncr
  {
    hide Increment;
  }

  lemma {:induction false} NoneInClosedWindow(s: Session, rx: nat, ms: seq<Sent>)
    requires s.Valid() && rx + MaxIvIncr >= IvWrap
    ensures InWindow(s, rx, ms) <==> WindowOpen(s, rx, ms)
    decreases |ms|
  {
    hide NextTx;
    if ms != [] && !ms[0].arrives {
      NoneInClosedWindow(NextTx(s), rx, ms[1..]);
    }
  }

  lemma {:induction false} FewLossesInWindow(s: Session, rx: nat, missed: nat, ms: seq<Sent>)
    requires InStep(s, rx, missed) && missed < MaxIvIncr / 4 && FewLosses(missed, ms)
    ensures InWindow(s, rx, ms) <==> WindowOpen(s, rx, ms)
    decreases |ms|
  {
    hide NextTx;
    if rx + MaxIvIncr >= IvWrap {
      NoneInClosedWindow(s, rx, ms);
    } else if ms != [] {
      NextInStep(s, rx, missed);
      if ms[0].arrives {
        FewLossesInWindow(NextTx(s), NextTx(s).tx, 0, ms[1..]);
      } else {
        FewLossesInWindow(NextTx(s), rx, missed + 1, ms[1..]);
      }
    }
  }

  /** With fewer than a quarter of the window lost in a row, every message that
      arrives is understood if and only if the window never reaches the end of the
      range. */
  lemma StreamUnderstood(s: Session, r: Session, missed: nat, ms: seq<Sent>)
    requires Paired(s, r) && InStep(s, r.rx, missed) && missed < MaxIvIncr / 4 && FewLosses(missed, ms)
    ensures AllUnderstood(s, r, ms) <==> WindowOpen(s, r.rx, ms)
  {
    UnderstoodIff(s, r, ms);
    FewLossesInWindow(s, r.rx, missed, ms);
  }

  lemma {:induction false} RoomForAll(s: Session, rx: nat, ms: seq<Sent>)
    requires s.Valid() && rx <= s.tx && s.tx + 4 * |ms| + MaxIvIncr <= IvWrap
    ensures WindowOpen(s, rx, ms)
    decreases |ms|
  {
    hide Increment;
    if ms != [] {
      RoomForAll(NextTx(s), if ms[0].arrives then NextTx(s).tx else rx, ms[1..]);
    }
  }

  /** With fresh keys there is room for more than a thousand million messages. */
  lemma FreshKeysUnderstood(s: Session, r: Session, ms: seq<Sent>)
    requires Paired(s, r) && s.tx == r.rx < 0x100_0000
    requires FewLosses(0, ms) && |ms| <= 0x3fbf_ffe0
    ensures AllUnderstood(s, r, ms)
  {
    RoomForAll(s, r.rx, ms);
    StreamUnderstood(s, r, 0, ms);
  }

  /** The sender's vectors do not go round. */
  predicate NoWrap(s: Session, ms: seq<Sent>)
    requires s.Valid()
    decreases |ms|
  {
    ms != [] ==> s.tx < NextTx(s).tx && NoWrap(NextTx(s), ms[1..])
  }

  /** Once the sender is ahead by the whole window the stream never recovers. */
  lemma {:induction false} NeverRecovers(s: Session, r: Session, ms: seq<Sent>)
    requires Paired(s, r) && s.tx >= r.rx + MaxIvIncr && NoWrap(s, ms)
    ensures AllRefused(s, r, ms)
    decreases |ms|
  {
    hide Seal, Open, NextTx;
    if ms != [] {
      Received(s, r, ms[0]);
      NeverRecovers(NextTx(s), r, ms[1..]);
    }
  }

  // ----- any input at all -----

  datatype RawInput = Input(buf: Bytes, len: int)

  /** A buffer that holds a header and as many bytes as it says it does. */
  type Input = i: RawInput | HeaderSize <= |i.buf| && i.len <= |i.buf| witness Input(Empty, 0)

  /** The vectors of the messages accepted from a sequence of buffers. */
  function AcceptedIvs(r: Session, inputs: seq<Input>): seq<nat>
    requires r.Valid()
    decreases |inputs|
  {
    if inputs == [] then []
    else
      var o := Open(r, inputs[0].buf, inputs[0].len);
      (if o.result.Some? then [o.session.rx] else []) + AcceptedIvs(o.session, inputs[1..])
  }

  lemma OpenAdvances(r: Session, buf: Bytes, len: int)
    requires r.Valid() && HeaderSize <= |buf| && len <= |buf|
    ensures var o := Open(r, buf, len);
      && r.rx <= o.session.rx && (o.result.Some? ==> r.rx < o.session.rx)
      && o.session == r.(rx := o.session.rx)
  {
    hide DecryptFront, HashAll, GetIv, Number, Blank;
  }

  predicate Increasing(least: nat, ivs: seq<nat>) {
    && (forall k :: 0 <= k < |ivs| ==> least < ivs[k])
    && (forall j, k :: 0 <= j < k < |ivs| ==> ivs[j] < ivs[k])
  }

  /** Whatever arrives, the accepted vectors strictly increase. */
  lemma {:induction false} AcceptedIncrease(r: Session, inputs: seq<Input>)
    requires r.Valid()
    ensures Increasing(r.rx, AcceptedIvs(r, inputs))
    decreases |inputs|
  {
    hide Open;
    if inputs != [] {
      var o := Open(r, inputs[0].buf, inputs[0].len);
      OpenAdvances(r, inputs[0].buf, inputs[0].len);
      AcceptedIncrease(o.session, inputs[1..]);
    }
  }

  lemma PadIsRight(len: nat, pad: nat, n: nat)
    requires len % PadUnit == 0 && pad < PadUnit && len == HeaderSize + n + pad
    ensures pad == PadOf(n)
  {
    var k := len / PadUnit;
    assert len == PadUnit * k;
    if pad == 0 {
      assert (n + HeaderSize) % PadUnit == 0;
    } else {
      assert n + HeaderSize == PadUnit * (k - 1) + (PadUnit - pad);
      assert (n + HeaderSize) % PadUnit == PadUnit - pad;
    }
  }

  /** Text that is hashed right and padded right is a stamped body. */
  lemma StampedBody(h: Hash, plain: Bytes, payload: Bytes, filler: Bytes)
    requires |plain| >= HeaderSize && |filler| == PadOf(|payload|)
    requires plain[HeaderSize..] == payload + filler && Number(plain[24]) == |filler|
    requires plain[..HashSize] == HashAll(h, Blank(plain))
    ensures plain == Stamp(h, Body(GetIv(plain[20..24]), payload, filler))
  {
    var iv := GetIv(plain[20..24]);
    PutOfGet(plain[20..24]);
    ByteOfNumber(plain[24]);
    hide PadOf, PutIv, GetIv, Byte, Number, HashAll, Body;
    FieldsFromPieces(plain, iv, payload, filler);
    BodyIsZerosAndFields(iv, payload, filler);
    hide Fields;
    BodyIsBlank(iv, payload, filler);
    var body := Body(iv, payload, filler);
    StampOf(h, plain, body);
  }

  lemma StampOf(h: Hash, plain: Bytes, body: Bytes)
    requires |body| >= HeaderSize && |plain| >= HeaderSize && body == Zeros + plain[HashSize..] && Blank(body) == body
    requires plain[..HashSize] == HashAll(h, Blank(plain))
    ensures plain == Stamp(h, body)
  {
    hide HashAll;
    assert Blank(plain) == body;
    assert body[HashSize..] == plain[HashSize..];
    assert plain == plain[..HashSize] + plain[HashSize..];
  }

  lemma FieldsFromPieces(plain: Bytes, iv: nat, payload: Bytes, filler: Bytes)
    requires |plain| >= HeaderSize && |filler| == PadOf(|payload|) && plain[HeaderSize..] == payload + filler
    requires plain[20..24] == PutIv(iv) && plain[24] == Byte(PadOf(|payload|))
    ensures plain[HashSize..] == Fields(iv, payload, filler)
  {
    hide PadOf, PutIv, Byte;
    assert plain[20..] == plain[20..24] + [plain[24]] + plain[25..];
    assert PutIv(iv) + [plain[24]] + (payload + filler) == PutIv(iv) + [plain[24]] + payload + filler;
  }

  /** The converse of OpenOfSeal, for any buffer at all: what is accepted with a
      length decrypts to exactly the message that a sender stamps for the payload
      that is returned and the vector that is recorded, and that vector is in the
      window. */
  lemma AcceptedIsMessage(r: Session, buf: Bytes, len: int) returns (payload: Bytes, filler: Bytes)
    requires r.Valid() && HeaderSize <= |buf| && len <= |buf|
    requires var o := Open(r, buf, len); o.result.Some? && o.result.value >= 0
    ensures var o := Open(r, buf, len);
      && 0 < len && len % PadUnit == 0
      && |payload| == o.result.value && |filler| == PadOf(|payload|)
      && DecryptAll(r.key, buf[..len]) == Stamp(r.hash, Body(o.session.rx, payload, filler))
      && o.buf[HeaderSize..HeaderSize + |payload|] == payload
      && AcceptsIv(r.rx, o.session.rx)
  {
    hide DecryptAll, HashAll, GetIv, Number, Stamp, Body, PadOf, AcceptsIv;
    var o := Open(r, buf, len);
    var whole := DecryptFront(r.key, buf, len);
    var pad, n := Number(whole[24]), o.result.value;
    assert len > 0 && Positive(len) == len && len == HeaderSize + n + pad;
    var plain := DecryptAll(r.key, buf[..len]);
    assert whole == plain + buf[len..];
    PadIsRight(len, pad, n);
    payload, filler := plain[HeaderSize..HeaderSize + n], plain[HeaderSize + n..];
    BlankFront(plain, buf[len..]);
    assert Blank(whole)[..len] == Blank(plain);
    assert whole[..20] == plain[..20] && whole[20..24] == plain[20..24] && whole[24] == plain[24];
    StampedBody(r.hash, plain, payload, filler);
  }

  /** Two buffers that are accepted with the same hash but decrypt differently
      contain a collision of the hash step. */
  lemma AlteredNeedsCollision(r: Session, a: Bytes, b: Bytes, q: Session)
    returns (d: Digest, u: Bytes, e: Digest, v: Bytes)
    requires Paired(q, r) && HeaderSize <= |a| == |b|
    requires Open(q, a, |a|).result.Some? && Open(r, b, |b|).result.Some?
    requires DecryptAll(r.key, a)[..HashSize] == DecryptAll(r.key, b)[..HashSize]
    requires DecryptAll(r.key, a) != DecryptAll(r.key, b)
    ensures |u| == |v| == PadUnit && (d, u) != (e, v) && r.hash.step(d, u) == r.hash.step(e, v)
  {
    hide DecryptAll, HashAll, GetIv, Number, AcceptsIv;
    var x, y := DecryptAll(r.key, a), DecryptAll(r.key, b);
    assert a[..|a|] == a && b[..|b|] == b;
    assert DecryptFront(q.key, a, |a|) == x && DecryptFront(r.key, b, |b|) == y;
    assert Blank(x)[..|x|] == Blank(x) && Blank(y)[..|y|] == Blank(y);
    assert x == x[..HashSize] + x[HashSize..] && y == y[..HashSize] + y[HashSize..];
    assert Blank(x)[HashSize..] == x[HashSize..] && Blank(y)[HashSize..] == y[HashSize..];
    d, u, e, v := HashCollision(r.hash, Blank(x), Blank(y));
  }

  /** The receiver after a sequence of buffers. */
  function Later(r: Session, inputs: seq<Input>): (q: Session)
    requires r.Valid()
    ensures q.Valid()
    decreases |inputs|
  {
    if inputs == [] then r else Later(Open(r, inputs[0].buf, inputs[0].len).session, inputs[1..])
  }

  lemma {:induction false} LaterAdvances(r: Session, inputs: seq<Input>)
    requires r.Valid()
    ensures var q := Later(r, inputs); r.rx <= q.rx && q == r.(rx := q.rx)
    decreases |inputs|
  {
    hide Open;
    if inputs != [] {
      OpenAdvances(r, inputs[0].buf, inputs[0].len);
      LaterAdvances(Open(r, inputs[0].buf, inputs[0].len).session, inputs[1..]);
    }
  }

  /** A buffer once accepted is refused ever after. */
  lemma ReplayRefused(r: Session, input: Input, between: seq<Input>)
    requires r.Valid()
    requires Open(r, input.buf, input.len).result.Some?
    ensures var q := Later(Open(r, input.buf, input.len).session, between);
      Open(q, input.buf, input.len).result.None?
  {
    hide DecryptFront, HashAll, GetIv, Number, Blank;
    var o := Open(r, input.buf, input.len);
    OpenAdvances(r, input.buf, input.len);
    LaterAdvances(o.session, between);
  }
}
