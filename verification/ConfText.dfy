/** The text of a configuration file: how values are written and read. */
module ConfText {
  import opened Options
  import opened Tristate

  datatype Kind = Boolean | ThreeState | Int | Hex | Text

  datatype FileValue = State(tri: Tri) | Written(text: string)

  /** What the user has chosen, by symbol name. */
  type UserSettings = map<string, FileValue>

  // ----- strings -----

  predicate Special(c: char) {
    c == '"' || c == '\\'
  }

  function Escape(s: string): string {
    if s == [] then [] else (if Special(s[0]) then ['\\', s[0]] else [s[0]]) + Escape(s[1..])
  }

  /** Up to the closing quote, a character behind a backslash standing for
      itself; none if there is no closing quote. */
  function Unescape(s: string): Option<string> {
    if s == [] then None
    else if s[0] == '"' then Some([])
    else if s[0] != '\\' then Prepend(s[0], Unescape(s[1..]))
    else if |s| == 1 then None
    else Prepend(s[1], Unescape(s[2..]))
  }

  function Prepend(c: char, r: Option<string>): Option<string> {
    if r.Some? then Some([c] + r.value) else None
  }

  /** Whatever quotes and backslashes a string holds, it comes back. */
  lemma {:induction false} UnescapeOfEscape(s: string, rest: string)
    ensures Unescape(Escape(s) + ['"'] + rest) == Some(s)
  {
    if s != [] {
      var tail := Escape(s[1..]) + ['"'] + rest;
      UnescapeOfEscape(s[1..], rest);
      assert s == [s[0]] + s[1..];
      var all := Escape(s) + ['"'] + rest;
      if Special(s[0]) {
        assert all == ['\\', s[0]] + tail;
        assert all[0] == '\\' && all[1] == s[0] && all[2..] == tail;
      } else {
        assert all == [s[0]] + tail;
        assert all[1..] == tail;
      }
    }
  }

  /** The first i characters have been written. */
  ghost predicate EscapedTo(s: string, out: string, i: nat) {
    i <= |s| && out + Escape(s[i..]) == Escape(s)
  }

  /** The writer's loop: plain stretches, then runs of special characters. */
  method WriteEscaped(s: string) returns (out: string)
    ensures out == Escape(s)
  {
    EscapeStart(s);
    hide Escape, Special, EscapedTo;
    out := [];
    var i := 0;
    while i < |s|
      invariant 0 <= i <= |s| && EscapedTo(s, out, i)
    {
      var from := i;
      assert out + s[from..i] == out;
      while i < |s| && !Special(s[i])
        invariant from <= i <= |s| && EscapedTo(s, out + s[from..i], i)
      {
        EscapePlain(s, out + s[from..i], i);
        assert out + s[from..i + 1] == out + s[from..i] + [s[i]];
        i := i + 1;
      }
      out := out + s[from..i];
      while i < |s| && Special(s[i])
        invariant from <= i <= |s| && EscapedTo(s, out, i)
        invariant i == from ==> i < |s| && Special(s[i])
      {
        EscapeSpecial(s, out, i);
        out := out + ['\\', s[i]];
        i := i + 1;
      }
    }
    EscapeEnd(s, out);
  }

  lemma EscapeStart(s: string)
    ensures EscapedTo(s, [], 0)
  {
    assert s[0..] == s;
  }

  lemma EscapeEnd(s: string, out: string)
    requires EscapedTo(s, out, |s|)
    ensures out == Escape(s)
  {
    assert Escape(s[|s|..]) == [];
  }

  lemma EscapePlain(s: string, out: string, i: nat)
    requires i < |s| && !Special(s[i]) && EscapedTo(s, out, i)
    ensures EscapedTo(s, out + [s[i]], i + 1)
  {
    assert s[i..][1..] == s[i + 1..];
    assert Escape(s[i..]) == [s[i]] + Escape(s[i + 1..]);
    hide Escape;
    assert out + ([s[i]] + Escape(s[i + 1..])) == out + [s[i]] + Escape(s[i + 1..]);
  }

  lemma EscapeSpecial(s: string, out: string, i: nat)
    requires i < |s| && Special(s[i]) && EscapedTo(s, out, i)
    ensures EscapedTo(s, out + ['\\', s[i]], i + 1)
  {
    assert s[i..][1..] == s[i + 1..];
    assert Escape(s[i..]) == ['\\', s[i]] + Escape(s[i + 1..]);
    hide Escape;
    assert out + (['\\', s[i]] + Escape(s[i + 1..])) == out + ['\\', s[i]] + Escape(s[i + 1..]);
  }

  function Behind(front: string, r: Option<string>): Option<string> {
    if r.Some? then Some(front + r.value) else None
  }

  /** One character left of the front moves behind it. */
  lemma BehindPrepend(front: string, c: char, r: Option<string>)
    ensures Behind(front, Prepend(c, r)) == Behind(front + [c], r)
  {
    if r.Some? {
      assert front + ([c] + r.value) == front + [c] + r.value;
    }
  }

  /** Drops the character at `p` by moving up the rest of the string and its
      terminator. */
  method Delete(buf: array<char>, p: nat, end: nat)
    requires p < end < buf.Length
    modifies buf
    ensures buf[..p] == old(buf[..p]) && buf[p..end] == old(buf[p + 1..end + 1]) && buf[p] == old(buf[p + 1])
  {
    for i := p to end
      invariant forall k :: p <= k < i ==> buf[k] == old(buf[k + 1])
      invariant forall k :: 0 <= k < p || i <= k < buf.Length ==> buf[k] == old(buf[k])
    {
      buf[i] := buf[i + 1];
    }
  }

  /** The reader's loop on the string at `start`, which ends before `end`: finds
      the closing quote, dropping backslashes on the way, and ends the string
      there. */
  method UnescapeInPlace(buf: array<char>, start: nat, end: nat) returns (closed: bool, stop: nat)
    requires start <= end < buf.Length
    modifies buf
    ensures closed <==> Unescape(old(buf[start..end])).Some?
    ensures closed ==> start <= stop <= end && buf[stop] == '\0'
    ensures closed ==> Unescape(old(buf[start..end])) == Some(buf[start..stop])
  {
    ghost var goal := Unescape(buf[start..end]);
    hide Unescape, Behind, Prepend;
    var p, n := start, end;
    NothingBefore(goal);
    assert buf[p..p] == [];
    while p < n
      invariant start <= p <= n <= end
      invariant goal == Behind(buf[start..p], Unescape(buf[p..n]))
      decreases n - p
    {
      UnescapeStep(buf[p..n]);
      if buf[p] == '"' {
        BehindEmpty(buf[start..p]);
        buf[p] := '\0';
        return true, p;
      }
      if buf[p] == '\\' {
        DropBackslash(buf, start, p, n, goal);
        n := n - 1;
        if p == n {
          return false, p;
        }
      } else {
        BehindPrepend(buf[start..p], buf[p], Unescape(buf[p + 1..n]));
        assert buf[start..p + 1] == buf[start..p] + [buf[p]];
      }
      p := p + 1;
    }
    assert buf[p..n] == [];
    UnescapeNothing();
    BehindNone(buf[start..p]);
    return false, p;
  }

  lemma MovedUp(was: string, now: string, p: nat, n: nat)
    requires p + 1 < n < |was| == |now| && now[p..n] == was[p + 1..n + 1]
    ensures now[p + 1..n - 1] == was[p..n][2..]
  {
    var a, b := now[p + 1..n - 1], was[p..n][2..];
    assert |a| == |b|;
    forall i | 0 <= i < |a| ensures a[i] == b[i] {
      assert a[i] == now[p..n][i + 1] && b[i] == was[p + 1..n + 1][i + 1];
    }
  }

  /** A backslash goes, and the character behind it stands for itself. */
  method DropBackslash(buf: array<char>, start: nat, p: nat, n: nat, ghost goal: Option<string>)
    requires start <= p < n < buf.Length && buf[p] == '\\'
    requires goal == Behind(buf[start..p], Unescape(buf[p..n]))
    modifies buf
    ensures if p + 1 == n then goal == None else goal == Behind(buf[start..p + 1], Unescape(buf[p + 1..n - 1]))
  {
    hide Unescape, Behind, Prepend;
    ghost var was, s := buf[..], buf[p..n];
    UnescapeStep(s);
    Delete(buf, p, n);
    assert buf[start..p] == buf[..p][start..] == was[start..p];
    if p + 1 == n {
      BehindNone(was[start..p]);
    } else {
      assert s[1] == buf[p];
      assert buf[..][p..n] == was[p + 1..n + 1];
      MovedUp(was, buf[..], p, n);
      assert s[2..] == buf[p + 1..n - 1];
      BehindPrepend(was[start..p], s[1], Unescape(s[2..]));
      assert buf[start..p + 1] == buf[start..p] + [buf[p]];
    }
  }

  lemma NothingBefore(r: Option<string>)
    ensures Behind([], r) == r
  {
    if r.Some? {
      assert [] + r.value == r.value;
    }
  }

  lemma BehindEmpty(front: string)
    ensures Behind(front, Some([])) == Some(front)
  {
    assert front + [] == front;
  }

  lemma BehindNone(front: string)
    ensures Behind(front, None) == None
  {
  }

  lemma UnescapeNothing()
    ensures Unescape([]) == None
  {
  }

  lemma UnescapeStep(s: string)
    requires s != []
    ensures s[0] == '"' ==> Unescape(s) == Some([])
    ensures !Special(s[0]) ==> Unescape(s) == Prepend(s[0], Unescape(s[1..]))
    ensures s[0] == '\\' && |s| == 1 ==> Unescape(s) == None
    ensures s[0] == '\\' && |s| > 1 ==> Unescape(s) == Prepend(s[1], Unescape(s[2..]))
  {
  }
}
