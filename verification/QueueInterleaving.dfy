/** One producer calling push-tail and one consumer calling pop-head on the
    same ring without a lock, interleaved at every access to shared memory. */
module QueueInterleaving {
  import opened Options
  import opened RingQueue

  /** Where the producer is inside a push: before the call, before reading the
      head, before writing the slot, before moving the tail, before counting. */
  datatype Producer<T> =
    | ProducerIdle
    | ReadHead(entry: T, newTail: nat)
    | WriteSlot(entry: T, newTail: nat)
    | MoveTail(entry: T, newTail: nat)
    | CountUp

  /** Where the consumer is inside a pop.  A slot nobody wrote reads as None. */
  datatype Consumer<T> =
    | ConsumerIdle
    | ReadTail(oldHead: nat)
    | FetchSlot(newHead: nat)
    | MoveHead(newHead: nat, fetched: Option<T>)
    | CountDown(fetched: Option<T>)

  /** The shared ring, both program counters, and the history of entries in the
      order in which the tail was moved for them and the head was moved past
      them. */
  datatype State<T> = State(
    head: nat, tail: nat, slots: seq<Option<T>>, entryCnt: int,
    producer: Producer<T>, consumer: Consumer<T>,
    pushed: seq<T>, popped: seq<Option<T>>)
  {
    predicate InBounds() {
      && head < |slots| && tail < |slots|
      && ((producer.ReadHead? || producer.WriteSlot? || producer.MoveTail?) ==> producer.newTail < |slots|)
      && (consumer.ReadTail? ==> consumer.oldHead < |slots|)
      && ((consumer.FetchSlot? || consumer.MoveHead?) ==> consumer.newHead < |slots|)
    }
  }

  function Init<T>(capacity: nat): State<T> {
    State(0, 0, seq(capacity + 1, _ => None), 0, ProducerIdle, ConsumerIdle, [], [])
  }

  /** One access by the producer; an idle producer starts pushing `next`. */
  function ProducerStep<T>(s: State<T>, next: T): (r: State<T>)
    requires s.InBounds()
    ensures r.InBounds() && |r.slots| == |s.slots|
  {
    match s.producer
    case ProducerIdle => s.(producer := ReadHead(next, Prev(s.tail, |s.slots|)))
    case ReadHead(x, t) => s.(producer := if t == s.head then ProducerIdle else WriteSlot(x, t))
    case WriteSlot(x, t) => s.(slots := s.slots[t := Some(x)], producer := MoveTail(x, t))
    case MoveTail(x, t) => s.(tail := t, pushed := s.pushed + [x], producer := CountUp)
    case CountUp => s.(entryCnt := s.entryCnt + 1, producer := ProducerIdle)
  }

  /** One access by the consumer; an idle consumer starts a pop. */
  function ConsumerStep<T>(s: State<T>): (r: State<T>)
    requires s.InBounds()
    ensures r.InBounds() && |r.slots| == |s.slots|
  {
    match s.consumer
    case ConsumerIdle => s.(consumer := ReadTail(s.head))
    case ReadTail(h) => s.(consumer := if h == s.tail then ConsumerIdle else FetchSlot(Prev(h, |s.slots|)))
    case FetchSlot(h) => s.(consumer := MoveHead(h, s.slots[h]))
    case MoveHead(h, x) => s.(head := h, popped := s.popped + [x], consumer := CountDown(x))
    case CountDown(_) => s.(entryCnt := s.entryCnt - 1, consumer := ConsumerIdle)
  }

  datatype Turn<T> = Produce(next: T) | Consume

  function Step<T>(s: State<T>, turn: Turn<T>): (r: State<T>)
    requires s.InBounds()
    ensures r.InBounds() && |r.slots| == |s.slots|
  {
    if turn.Produce? then ProducerStep(s, turn.next) else ConsumerStep(s)
  }

  /** The state after any schedule of turns. */
  function Run<T>(capacity: nat, turns: seq<Turn<T>>): (r: State<T>)
    ensures r.InBounds() && |r.slots| == capacity + 1
  {
    if turns == [] then Init(capacity)
    else Step(Run(capacity, turns[..|turns| - 1]), turns[|turns| - 1])
  }

  function InFlight<T>(s: State<T>): (n: nat)
    requires s.InBounds()
  {
    Distance(s.tail, s.head, |s.slots|)
  }

  /** Entries between tail and head are the last ones pushed, newest at the
      tail, and those before them are the ones popped. */
  ghost predicate Fifo<T>(s: State<T>)
    requires s.InBounds()
  {
    && |s.pushed| == |s.popped| + InFlight(s)
    && (forall i :: 0 <= i < |s.popped| ==> s.popped[i] == Some(s.pushed[i]))
    && (forall i :: 0 <= i < InFlight(s) ==>
          s.slots[Slot(s.tail, i, |s.slots|)] == Some(s.pushed[|s.pushed| - 1 - i]))
  }

  ghost predicate ProducerOk<T>(s: State<T>)
    requires s.InBounds()
  {
    match s.producer
    case ReadHead(_, t) => t == Prev(s.tail, |s.slots|)
    case WriteSlot(_, t) => t == Prev(s.tail, |s.slots|) && t != s.head
    case MoveTail(x, t) => t == Prev(s.tail, |s.slots|) && t != s.head && s.slots[t] == Some(x)
    case _ => true
  }

  ghost predicate ConsumerOk<T>(s: State<T>)
    requires s.InBounds()
  {
    match s.consumer
    case ReadTail(h) => h == s.head
    case FetchSlot(h) => s.head != s.tail && h == Prev(s.head, |s.slots|)
    case MoveHead(h, x) => s.head != s.tail && h == Prev(s.head, |s.slots|) && x == s.slots[h]
    case _ => true
  }

  /** The counter lags behind the two index moves. */
  predicate Counted<T>(s: State<T>)
    requires s.InBounds()
  {
    s.entryCnt == InFlight(s) - (if s.producer.CountUp? then 1 else 0)
                              + (if s.consumer.CountDown? then 1 else 0)
  }

  ghost predicate Inv<T>(s: State<T>) {
    s.InBounds() && Fifo(s) && ProducerOk(s) && ConsumerOk(s) && Counted(s)
  }

  lemma WriteKeeps<T>(s: State<T>, next: T)
    requires Inv(s) && s.producer.WriteSlot?
    ensures Inv(ProducerStep(s, next))
  {
    hide Next;
    forall i | 0 <= i < InFlight(s) ensures Slot(s.tail, i, |s.slots|) != s.producer.newTail {
    }
    if s.consumer.MoveHead? {
      assert Slot(s.tail, InFlight(s) - 1, |s.slots|) == s.consumer.newHead;
    }
  }

  lemma PublishKeeps<T>(s: State<T>, next: T)
    requires Inv(s) && s.producer.MoveTail?
    ensures Inv(ProducerStep(s, next))
  {
    hide Next;
    var r := ProducerStep(s, next);
    assert InFlight(r) == InFlight(s) + 1;
    forall i | 0 <= i < InFlight(r)
      ensures r.slots[Slot(r.tail, i, |s.slots|)] == Some(r.pushed[|r.pushed| - 1 - i])
    {
      if i > 0 {
        assert Slot(r.tail, i, |s.slots|) == Slot(s.tail, i - 1, |s.slots|);
      }
    }
  }

  lemma ProducerKeeps<T>(s: State<T>, next: T)
    requires Inv(s)
    ensures Inv(ProducerStep(s, next))
  {
    hide Next;
    if s.producer.WriteSlot? {
      WriteKeeps(s, next);
    } else if s.producer.MoveTail? {
      PublishKeeps(s, next);
    }
  }

  lemma ConsumerKeeps<T>(s: State<T>)
    requires Inv(s)
    ensures Inv(ConsumerStep(s))
  {
    hide Next;
    if s.consumer.MoveHead? {
      var n := InFlight(s);
      assert Slot(s.tail, n - 1, |s.slots|) == s.consumer.newHead;
      assert s.consumer.fetched == Some(s.pushed[|s.popped|]);
    }
  }

  lemma {:induction false} RunKeeps<T>(capacity: nat, turns: seq<Turn<T>>)
    ensures Inv(Run(capacity, turns))
  {
    if turns != [] {
      var before := turns[..|turns| - 1];
      RunKeeps(capacity, before);
      if turns[|turns| - 1].Produce? {
        ProducerKeeps(Run(capacity, before), turns[|turns| - 1].next);
      } else {
        ConsumerKeeps(Run(capacity, before));
      }
    }
  }

  /** Under every schedule what came out is a prefix of what went in, at most
      `capacity` entries are in flight, and every slot fetched had been written
      with the entry that is next in order. */
  lemma PoppedIsPrefix<T>(capacity: nat, turns: seq<Turn<T>>)
    ensures var s := Run(capacity, turns);
      && |s.popped| <= |s.pushed| <= |s.popped| + capacity
      && (forall i :: 0 <= i < |s.popped| ==> s.popped[i] == Some(s.pushed[i]))
      && (s.consumer.MoveHead? ==>
            |s.popped| < |s.pushed| && s.consumer.fetched == Some(s.pushed[|s.popped|]))
  {
    RunKeeps(capacity, turns);
    var s := Run(capacity, turns);
    if s.consumer.MoveHead? {
      assert Slot(s.tail, InFlight(s) - 1, |s.slots|) == s.consumer.newHead;
    }
  }

  /** The queue as its callers see it: entries pushed, and how many of them
      have been popped. */
  ghost predicate FifoStep<T>(capacity: nat, s: State<T>, r: State<T>) {
    || (r.pushed == s.pushed && r.popped == s.popped)
    || (|s.pushed| < |s.popped| + capacity
        && |r.pushed| == |s.pushed| + 1 && s.pushed <= r.pushed && r.popped == s.popped)
    || (|s.popped| < |s.pushed|
        && r.pushed == s.pushed && r.popped == s.popped + [Some(s.pushed[|s.popped|])])
  }

  /** Every shared-memory access is invisible or one whole operation of a
      bounded first-in first-out queue. */
  lemma EachTurnIsAtomic<T>(capacity: nat, turns: seq<Turn<T>>, turn: Turn<T>)
    ensures var s := Run(capacity, turns); FifoStep(capacity, s, Step(s, turn))
  {
    var s := Run(capacity, turns);
    RunKeeps(capacity, turns);
    PoppedIsPrefix(capacity, turns);
  }

  /** A push gives up exactly when the ring is full at the moment it looks at
      the head; a pop exactly when the ring is empty as it looks at the tail. */
  lemma RefusalsAreExact<T>(capacity: nat, turns: seq<Turn<T>>, next: T)
    ensures var s := Run(capacity, turns);
      && (s.producer.ReadHead? ==>
            (ProducerStep(s, next).producer.ProducerIdle? <==> |s.pushed| == |s.popped| + capacity))
      && (s.consumer.ReadTail? ==>
            (ConsumerStep(s).consumer.ConsumerIdle? <==> |s.pushed| == |s.popped|))
  {
    RunKeeps(capacity, turns);
  }

  /** The entry counter is never more than one off, and exact if and only if both
      sides or neither have moved their index without having counted. */
  lemma CounterBounds<T>(capacity: nat, turns: seq<Turn<T>>)
    ensures var s := Run(capacity, turns);
      && -1 <= s.entryCnt - (|s.pushed| - |s.popped|) <= 1
      && (s.entryCnt == |s.pushed| - |s.popped| <==> s.producer.CountUp? == s.consumer.CountDown?)
  {
    RunKeeps(capacity, turns);
  }

  /** The counter can be seen below zero: the consumer takes an entry and
      counts it down before the producer has counted it up. */
  lemma CounterGoesNegative()
    ensures var p := Produce(7); var c: Turn<int> := Consume;
      Run(1, [p, p, p, p, c, c, c, c, c]).entryCnt == -1
  {
    var p := Produce(7);
    var c: Turn<int> := Consume;
    var all := [p, p, p, p, c, c, c, c, c];
    assert all[..8] == [p, p, p, p, c, c, c, c];
    assert all[..8][..7] == [p, p, p, p, c, c, c];
    assert all[..8][..7][..6] == [p, p, p, p, c, c];
    assert [p, p, p, p, c, c][..5] == [p, p, p, p, c];
    assert [p, p, p, p, c][..4] == [p, p, p, p];
    assert [p, p, p, p][..3] == [p, p, p];
    assert [p, p, p][..2] == [p, p];
    assert [p, p][..1] == [p];
    assert Run(1, [p]).producer == ReadHead(7, 1);
    assert Run(1, [p, p]).producer == WriteSlot(7, 1);
    assert Run(1, [p, p, p]).producer == MoveTail(7, 1);
    assert Run(1, [p, p, p, p]).tail == 1;
    assert Run(1, [p, p, p, p, c]).consumer == ReadTail(0);
    assert Run(1, [p, p, p, p, c, c]).consumer == FetchSlot(1);
    assert Run(1, [p, p, p, p, c, c, c]).consumer.MoveHead?;
    assert Run(1, [p, p, p, p, c, c, c, c]).consumer.CountDown?;
  }
}
