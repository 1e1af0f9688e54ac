/** The driver's receive loops over its three descriptor queues. */
module RxDriver {
  import opened Options
  import opened RingQueue
  import opened RxPools

  /** The descriptors that are somewhere; one is in hand inside a loop body. */
  function Count(p: Pools): nat {
    |p.received| + |p.outOfBuf| + |p.free| + |p.ring|
  }

  class Driver {
    const received: Queue<nat>
    const outOfBuf: Queue<nat>
    const free: Queue<nat>
    /** The queues are made large enough for all the descriptors. */
    const room: nat
    var ring: seq<nat>
    var buffered: set<nat>
    var delivered: seq<nat>

    ghost predicate Valid()
      reads this, received, received.slots, outOfBuf, outOfBuf.slots, free, free.slots
    {
      && received != outOfBuf && received != free && outOfBuf != free
      && received.slots != outOfBuf.slots && received.slots != free.slots
      && outOfBuf.slots != free.slots
      && received.Valid() && outOfBuf.Valid() && free.Valid()
      && received.Capacity() == room && outOfBuf.Capacity() == room && free.Capacity() == room
    }

    ghost function View(): Pools
      requires Valid()
      reads this, received, received.slots, outOfBuf, outOfBuf.slots, free, free.slots
    {
      Pools(received.Contents(), outOfBuf.Contents(), free.Contents(), ring, buffered, delivered)
    }

    constructor (capacity: nat)
      ensures Valid() && View() == Pools([], [], [], [], {}, []) && room == capacity
    {
      received := new Queue(capacity);
      outOfBuf := new Queue(capacity);
      free := new Queue(capacity);
      room := capacity;
      ring, buffered, delivered := [], {}, [];
    }

    method PopReceived() returns (d: Option<nat>)
      requires Valid()
      modifies received`head, received`entryCnt
      ensures Valid() && (d.None? <==> old(View()).received == [])
      ensures d.None? ==> View() == old(View())
      ensures d.Some? ==> d.value == Last(old(View()).received)
      ensures d.Some? ==> View() == old(View()).(received := Front(old(View()).received))
    {
      d := received.PopHead();
    }

    method PopWaiting() returns (d: Option<nat>)
      requires Valid()
      modifies outOfBuf`head, outOfBuf`entryCnt
      ensures Valid() && (d.None? <==> old(View()).outOfBuf == [])
      ensures d.None? ==> View() == old(View())
      ensures d.Some? ==> d.value == Last(old(View()).outOfBuf)
      ensures d.Some? ==> View() == old(View()).(outOfBuf := Front(old(View()).outOfBuf))
    {
      d := outOfBuf.PopHead();
    }

    method PopFree() returns (d: Option<nat>)
      requires Valid()
      modifies free`head, free`entryCnt
      ensures Valid() && (d.None? <==> old(View()).free == [])
      ensures d.None? ==> View() == old(View())
      ensures d.Some? ==> d.value == Last(old(View()).free)
      ensures d.Some? ==> View() == old(View()).(free := Front(old(View()).free))
    {
      d := free.PopHead();
    }

    method PushFree(d: nat)
      requires Valid() && Count(View()) < room
      modifies free`tail, free`entryCnt, free.slots
      ensures Valid() && View() == old(View()).(free := [d] + old(View()).free)
    {
      var ok := free.PushTail(d);
    }

    method PushWaiting(d: nat)
      requires Valid() && Count(View()) < room
      modifies outOfBuf`tail, outOfBuf`entryCnt, outOfBuf.slots
      ensures Valid() && View() == old(View()).(outOfBuf := [d] + old(View()).outOfBuf)
    {
      var ok := outOfBuf.PushTail(d);
    }

    method PushBackWaiting(d: nat)
      requires Valid() && Count(View()) < room
      modifies outOfBuf`head, outOfBuf`entryCnt, outOfBuf.slots
      ensures Valid() && View() == old(View()).(outOfBuf := old(View()).outOfBuf + [d])
    {
      var ok := outOfBuf.PushHead(d);
    }

    /** What happens to one received packet. */
    method IndicatePacket(ghost was: Pools, d: nat, tasklet: bool, frame: Frame, alloc: bool)
      requires Valid() && Count(was) <= room
      requires was.received != [] && d == Last(was.received)
      requires View() == was.(received := Front(was.received))
      modifies this, outOfBuf`tail, outOfBuf`entryCnt, outOfBuf.slots, free`tail, free`entryCnt, free.slots
      ensures Valid() && Count(View()) == Count(was)
      ensures View() == IndicateOne(was, tasklet, frame, alloc)
    {
      if frame.BadFrame? {
        if tasklet {
          PushWaiting(d);
        } else {
          PushFree(d);
        }
        return;
      }
      if frame.Good? {
        delivered := delivered + [d];
      }
      if tasklet || !alloc {
        buffered := buffered - {d};
        PushWaiting(d);
      } else {
        buffered := buffered + {d};
        PushFree(d);
      }
    }

    /** Hand every received packet up or reuse its descriptor. */
    method IndicateRxPackets(tasklet: bool, frames: nat -> Frame, alloc: nat -> bool)
      requires Valid() && Count(View()) <= room
      modifies this, received`head, received`entryCnt
      modifies outOfBuf`tail, outOfBuf`entryCnt, outOfBuf.slots, free`tail, free`entryCnt, free.slots
      ensures Valid() && View() == Indicate(old(View()), tasklet, frames, alloc)
    {
      hide Driver.Valid;
      hide Driver.View;
      while true
        invariant Valid() && Count(View()) <= room
        invariant Indicate(View(), tasklet, frames, alloc) == Indicate(old(View()), tasklet, frames, alloc)
        decreases |View().received|
      {
        ghost var before := View();
        var packet := PopReceived();
        if packet.None? {
          break;
        }
        var d := packet.value;
        IndicatePacket(before, d, tasklet, frames(d), alloc(d));
      }
    }

    method Lend(d: nat)
      requires Valid()
      modifies this`ring
      ensures Valid() && View() == old(View()).(ring := old(View()).ring + [d])
    {
      ring := ring + [d];
    }

    /** Lend up to `limit` free descriptors to the hardware. */
    method QueueRxPackets(limit: nat)
      requires Valid()
      modifies this`ring, free`head, free`entryCnt
      ensures Valid() && View() == QueueRx(old(View()), limit)
    {
      hide Driver.Valid;
      hide Driver.View;
      for left := limit downto 0
        invariant Valid()
        invariant QueueRx(View(), left) == QueueRx(old(View()), limit)
      {
        var d := PopFree();
        if d.None? {
          return;
        }
        Lend(d.value);
      }
    }

    /** The hardware gives a descriptor back with a packet in its buffer. */
    method ReceivePacket(k: nat)
      requires Valid() && Count(View()) <= room && k < |ring|
      modifies this`ring, received`tail, received`entryCnt, received.slots
      ensures Valid() && View() == Receive(old(View()), k)
    {
      var d := ring[k];
      ring := ring[..k] + ring[k + 1..];
      var ok := received.PushTail(d);
    }

    method HasBuffer(d: nat) returns (has: bool)
      requires Valid()
      ensures has <==> d in View().buffered
    {
      has := d in buffered;
    }

    method AddBuffer(d: nat)
      requires Valid()
      modifies this`buffered
      ensures Valid() && View() == old(View()).(buffered := old(View()).buffered + {d})
    {
      buffered := buffered + {d};
    }

    /** Give waiting descriptors buffers; true if not all could be served. */
    method ReplenishRxBuffers(max: int, alloc: nat -> bool, queueAgain: bool, limit: nat) returns (failed: bool)
      requires Valid() && Count(View()) <= room
      modifies this`ring, this`buffered, free, free.slots, outOfBuf`head, outOfBuf`entryCnt, outOfBuf.slots
      ensures Valid()
      ensures var (r, f, moved) := Replenish(old(View()), max, 0, alloc);
        failed == f && View() == if moved || queueAgain then QueueRx(r, limit) else r
    {
      hide Driver.Valid;
      hide Driver.View;
      var queueRx, given := false, 0;
      failed := false;
      ghost var goal := Replenish(View(), max, 0, alloc);
      while true
        invariant Valid() && Count(View()) <= room && given >= 0 && !failed
        invariant goal.0 == Replenish(View(), max, given, alloc).0
        invariant goal.1 == Replenish(View(), max, given, alloc).1
        invariant goal.2 == (queueRx || Replenish(View(), max, given, alloc).2)
        decreases |View().outOfBuf|
      {
        ghost var before := View();
        var waiting := PopWaiting();
        if waiting.None? {
          break;
        }
        var d := waiting.value;
        var reuse := HasBuffer(d);
        if reuse {
          PushFree(d);
          queueRx := true;
          assert before.buffered + {d} == before.buffered;
          continue;
        }
        if !alloc(d) {
          PushBackWaiting(d);
          failed := true;
          assert View() == before;
          break;
        }
        AddBuffer(d);
        PushFree(d);
        queueRx := true;
        if max > 0 {
          given := given + 1;
          if given >= max {
            break;
          }
        }
      }
      assert View() == goal.0 && failed == goal.1 && queueRx == goal.2;
      if queueRx || queueAgain {
        QueueRxPackets(limit);
      }
    }

    method InitializePacket(ghost was: Pools, d: nat, alloc: bool)
      requires Valid() && Count(was) <= room
      requires was.free != [] && d == Last(was.free)
      requires View() == was.(free := Front(was.free))
      modifies this`buffered, outOfBuf`tail, outOfBuf`entryCnt, outOfBuf.slots, free`tail, free`entryCnt, free.slots
      ensures Valid() && Count(View()) == Count(was)
      ensures View() == InitializeOne(was, alloc)
    {
      if d !in buffered {
        if !alloc {
          PushWaiting(d);
          return;
        }
        buffered := buffered + {d};
      }
      assert View().buffered == was.buffered + {d};
      PushFree(d);
    }

    /** Provide buffers for the `count` descriptors of the free queue. */
    method InitializeUmPackets(count: nat, alloc: nat -> bool)
      requires Valid() && Count(View()) <= room && count <= |View().free|
      modifies this`buffered, outOfBuf`tail, outOfBuf`entryCnt, outOfBuf.slots, free, free.slots
      ensures Valid() && View() == Initialize(old(View()), count, alloc)
    {
      hide Driver.Valid;
      hide Driver.View;
      for left := count downto 0
        invariant Valid() && Count(View()) <= room && left <= |View().free|
        invariant Initialize(View(), left, alloc) == Initialize(old(View()), count, alloc)
      {
        ghost var before := View();
        var d := PopFree();
        InitializePacket(before, d.value, alloc(d.value));
      }
    }
  }
}
