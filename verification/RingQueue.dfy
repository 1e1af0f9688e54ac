/** The driver's ring buffer: a double-ended queue in an array that always
    keeps one slot free. */
module RingQueue {
  import opened Options

  /** The slot `i` places after `tail`, going round at `size`. */
  function Slot(tail: nat, i: nat, size: nat): (k: nat)
    requires tail < size && i <= size
    ensures k < size
  {
    if tail + i < size then tail + i else tail + i - size
  }

  /** How many slots lie from `tail` up to `head`, going round at `size`. */
  function Distance(tail: nat, head: nat, size: nat): (n: nat)
    requires tail < size && head < size
    ensures n < size && Slot(tail, n, size) == head
  {
    if tail <= head then head - tail else head + size - tail
  }

  function Next(k: nat, size: nat): (r: nat)
    requires k < size
    ensures r < size && r == Slot(k, 1, size)
  {
    (k + 1) % size
  }

  function Prev(k: nat, size: nat): (r: nat)
    requires k < size
    ensures r < size && Slot(r, 1, size) == k
  {
    (if k == 0 then size else k) - 1
  }

  /** The entries from the tail to the head. */
  function Window<T>(slots: seq<T>, tail: nat, head: nat): (w: seq<T>)
    requires tail < |slots| && head < |slots|
    ensures |w| == Distance(tail, head, |slots|)
  {
    if tail <= head then slots[tail..head] else slots[tail..] + slots[..head]
  }

  lemma WindowAt<T>(slots: seq<T>, tail: nat, head: nat, i: nat)
    requires tail < |slots| && head < |slots| && i < Distance(tail, head, |slots|)
    ensures Window(slots, tail, head)[i] == slots[Slot(tail, i, |slots|)]
  {
  }

  lemma DistanceIsModular(tail: nat, head: nat, size: nat)
    requires tail < size && head < size
    ensures Distance(tail, head, size) == (head - tail) % size
  {
  }

  lemma WindowPopHead<T>(slots: seq<T>, tail: nat, head: nat)
    requires tail < |slots| && head < |slots| && tail != head
    ensures Window(slots, tail, head)
         == Window(slots, tail, Prev(head, |slots|)) + [slots[Prev(head, |slots|)]]
  {
    var k := Prev(head, |slots|);
    if head == 0 {
      assert slots[tail..] == slots[tail..k] + [slots[k]];
    } else if tail < head {
      assert slots[tail..head] == slots[tail..k] + [slots[k]];
    } else {
      assert slots[..head] == slots[..k] + [slots[k]];
    }
  }

  lemma WindowPopTail<T>(slots: seq<T>, tail: nat, head: nat)
    requires tail < |slots| && head < |slots| && tail != head
    ensures Window(slots, tail, head)
         == [slots[tail]] + Window(slots, Next(tail, |slots|), head)
  {
    var n := Next(tail, |slots|);
    hide Next;
    if tail < head {
      assert n == tail + 1;
      assert slots[tail..head] == [slots[tail]] + slots[tail + 1..head];
    } else if tail + 1 < |slots| {
      assert n == tail + 1;
      PopInFront(slots, tail, slots[..head]);
    } else {
      assert n == 0 && slots[0..head] == slots[..head];
      assert slots[tail..] == [slots[tail]];
    }
  }

  lemma PopInFront<T>(s: seq<T>, k: nat, rest: seq<T>)
    requires k < |s|
    ensures s[k..] + rest == [s[k]] + (s[k + 1..] + rest)
  {
  }

  /** A write outside the window does not show. */
  lemma WindowIgnores<T>(slots: seq<T>, tail: nat, head: nat, k: nat, x: T)
    requires tail < |slots| && head < |slots| && k < |slots|
    requires if tail <= head then k < tail || head <= k else head <= k < tail
    ensures Window(slots[k := x], tail, head) == Window(slots, tail, head)
  {
    var after := slots[k := x];
    if tail <= head {
      assert after[tail..head] == slots[tail..head];
    } else {
      assert after[tail..] == slots[tail..] && after[..head] == slots[..head];
    }
  }

  /** Writing at the head slot and moving the head on adds a last entry. */
  lemma WindowPushHead<T>(slots: seq<T>, tail: nat, head: nat, x: T)
    requires tail < |slots| && head < |slots| && Next(head, |slots|) != tail
    ensures Window(slots[head := x], tail, Next(head, |slots|)) == Window(slots, tail, head) + [x]
  {
    hide Next;
    var n := Next(head, |slots|);
    assert Prev(n, |slots|) == head;
    WindowPopHead(slots[head := x], tail, n);
    WindowIgnores(slots, tail, head, head, x);
    hide Window;
  }

  /** Writing below the tail and moving the tail there adds a first entry. */
  lemma WindowPushTail<T>(slots: seq<T>, tail: nat, head: nat, x: T)
    requires tail < |slots| && head < |slots| && Prev(tail, |slots|) != head
    ensures Window(slots[Prev(tail, |slots|) := x], Prev(tail, |slots|), head)
         == [x] + Window(slots, tail, head)
  {
    hide Next;
    var k := Prev(tail, |slots|);
    assert Next(k, |slots|) == tail;
    WindowPopTail(slots[k := x], k, head);
    WindowIgnores(slots, tail, head, k, x);
    hide Window;
  }

  class Queue<T(0)> {
    var head: nat
    var tail: nat
    const size: nat
    var entryCnt: int
    const slots: array<T>

    ghost predicate Valid()
      reads this, slots
    {
      && slots.Length == size
      && head < size && tail < size
      && entryCnt == Distance(tail, head, size)
    }

    /** The queue as a sequence, from its tail to its head. */
    ghost function Contents(): (s: seq<T>)
      requires Valid()
      reads this, slots
      ensures |s| == entryCnt == (head - tail) % size
    {
      DistanceIsModular(tail, head, size);
      Window(slots[..], tail, head)
    }

    /** Room for `capacity` entries takes one slot more. */
    constructor (capacity: nat)
      ensures Valid() && Contents() == [] && Capacity() == capacity
      ensures fresh(slots)
    {
      head, tail, size, entryCnt := 0, 0, capacity + 1, 0;
      slots := new T[capacity + 1];
    }

    function Capacity(): (n: int) {
      size - 1
    }

    predicate Full()
      requires Valid()
      reads this, slots
      ensures Full() <==> |Contents()| == Capacity()
    {
      Next(head, size) == tail
    }

    predicate Empty()
      requires Valid()
      reads this, slots
      ensures Empty() <==> Contents() == []
    {
      head == tail
    }

    function GetEntryCnt(): (n: int)
      requires Valid()
      reads this, slots
      ensures n == |Contents()|
    {
      entryCnt
    }

    method PushHead(x: T) returns (ok: bool)
      requires Valid()
      modifies this`head, this`entryCnt, slots
      ensures Valid()
      ensures ok <==> old(|Contents()|) < Capacity()
      ensures Contents() == if ok then old(Contents()) + [x] else old(Contents())
    {
      var h := Next(head, size);
      if h == tail {
        return false;
      }
      WindowPushHead(slots[..], tail, head, x);
      slots[head] := x;
      head := h;
      entryCnt := entryCnt + 1;
      return true;
    }

    method PushTail(x: T) returns (ok: bool)
      requires Valid()
      modifies this`tail, this`entryCnt, slots
      ensures Valid()
      ensures ok <==> old(|Contents()|) < Capacity()
      ensures Contents() == if ok then [x] + old(Contents()) else old(Contents())
    {
      var t := Prev(tail, size);
      if t == head {
        return false;
      }
      WindowPushTail(slots[..], tail, head, x);
      slots[t] := x;
      tail := t;
      entryCnt := entryCnt + 1;
      return true;
    }

    method PopHead() returns (r: Option<T>)
      requires Valid()
      modifies this`head, this`entryCnt
      ensures Valid()
      ensures r.None? <==> old(Contents()) == []
      ensures old(Contents()) == if r.Some? then Contents() + [r.value] else Contents()
    {
      if head == tail {
        return None;
      }
      WindowPopHead(slots[..], tail, head);
      var h := Prev(head, size);
      r := Some(slots[h]);
      head := h;
      entryCnt := entryCnt - 1;
    }

    method PopTail() returns (r: Option<T>)
      requires Valid()
      modifies this`tail, this`entryCnt
      ensures Valid()
      ensures r.None? <==> old(Contents()) == []
      ensures old(Contents()) == if r.Some? then [r.value] + Contents() else Contents()
    {
      if head == tail {
        return None;
      }
      WindowPopTail(slots[..], tail, head);
      r := Some(slots[tail]);
      tail := Next(tail, size);
      entryCnt := entryCnt - 1;
    }

    /** The entry `idx` places from the head. */
    function GetHead(idx: nat): (r: Option<T>)
      requires Valid()
      reads this, slots
      ensures r == if idx < |Contents()| then Some(Contents()[|Contents()| - 1 - idx]) else None
    {
      if idx >= entryCnt then None
      else
        var k := (if head > idx then head - idx else size - (idx - head)) - 1;
        WindowAt(slots[..], tail, head, entryCnt - 1 - idx);
        Some(slots[k])
    }

    /** The entry `idx` places from the tail. */
    function GetTail(idx: nat): (r: Option<T>)
      requires Valid()
      reads this, slots
      ensures r == if idx < |Contents()| then Some(Contents()[idx]) else None
    {
      if idx >= entryCnt then None
      else
        var k := idx + tail;
        WindowAt(slots[..], tail, head, idx);
        Some(slots[if k >= size then k - size else k])
    }
  }
}
