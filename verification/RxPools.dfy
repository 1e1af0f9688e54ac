/** Where the receive descriptors of the driver are, and how they circulate. */
module RxPools {
  /** What the driver finds out about a received frame. */
  datatype Frame = Good | BadFrame | BadTag

  /** Queues run from tail to head, so descriptors leave at the end.  `ring`
      holds the descriptors lent to the hardware, `buffered` those with a
      socket buffer, `delivered` those whose buffer went up the stack. */
  datatype Pools = Pools(
    received: seq<nat>, outOfBuf: seq<nat>, free: seq<nat>, ring: seq<nat>,
    buffered: set<nat>, delivered: seq<nat>)

  function Last(s: seq<nat>): nat
    requires s != []
  {
    s[|s| - 1]
  }

  function Front(s: seq<nat>): seq<nat>
    requires s != []
  {
    s[..|s| - 1]
  }

  lemma PopLast(s: seq<nat>)
    requires s != []
    ensures multiset(s) == multiset(Front(s)) + multiset{Last(s)}
  {
    assert s == Front(s) + [Last(s)];
  }

  function All(p: Pools): multiset<nat> {
    multiset(p.received) + multiset(p.outOfBuf) + multiset(p.free) + multiset(p.ring)
  }

  /** No descriptor is in two places, and only those that wait for a buffer may
      be without one. */
  ghost predicate Sound(p: Pools) {
    && (forall d :: All(p)[d] <= 1)
    && (forall d :: d in p.received || d in p.free || d in p.ring ==> d in p.buffered)
  }

  /** One received descriptor: a bad frame keeps its buffer; a good one gives
      it up and needs another, at once or, with a tasklet, later. */
  function IndicateOne(p: Pools, tasklet: bool, frame: Frame, alloc: bool): Pools
    requires p.received != []
  {
    var d := Last(p.received);
    var q := p.(received := Front(p.received));
    if frame.BadFrame? then
      if tasklet then q.(outOfBuf := [d] + q.outOfBuf) else q.(free := [d] + q.free)
    else
      var u := if frame.Good? then q.(delivered := q.delivered + [d]) else q;
      if tasklet || !alloc then u.(outOfBuf := [d] + u.outOfBuf, buffered := u.buffered - {d})
      else u.(free := [d] + u.free, buffered := u.buffered + {d})
  }

  /** Empty the received queue.  `frames` and `alloc` answer for each packet in
      turn what it is and whether a new buffer can be had. */
  function Indicate(p: Pools, tasklet: bool, frames: nat -> Frame, alloc: nat -> bool): Pools
    decreases |p.received|
  {
    if p.received == [] then p
    else
      var d := Last(p.received);
      Indicate(IndicateOne(p, tasklet, frames(d), alloc(d)), tasklet, frames, alloc)
  }

  /** Give buffers to waiting descriptors until none waits, none can be had, or
      `max` (if positive) have been given.  The flags say that allocation
      failed and that something went to the free queue. */
  function Replenish(p: Pools, max: int, given: nat, alloc: nat -> bool): (Pools, bool, bool)
    decreases |p.outOfBuf|
  {
    if p.outOfBuf == [] then (p, false, false)
    else
      var d := Last(p.outOfBuf);
      var q := p.(outOfBuf := Front(p.outOfBuf), free := [d] + p.free, buffered := p.buffered + {d});
      if d in p.buffered then
        var r := Replenish(q, max, given, alloc);
        (r.0, r.1, true)
      else if !alloc(d) then (p, true, false)
      else if max > 0 && given + 1 >= max then (q, false, true)
      else
        var r := Replenish(q, max, if max > 0 then given + 1 else given, alloc);
        (r.0, r.1, true)
  }

  /** The first descriptors of the free queue go to the hardware. */
  function QueueRx(p: Pools, limit: nat): Pools
    decreases limit
  {
    if limit == 0 || p.free == [] then p
    else QueueRx(p.(free := Front(p.free), ring := p.ring + [Last(p.free)]), limit - 1)
  }

  /** The hardware fills the buffer of the descriptor at `k` of its ring. */
  function Receive(p: Pools, k: nat): Pools
    requires k < |p.ring|
  {
    p.(ring := p.ring[..k] + p.ring[k + 1..], received := [p.ring[k]] + p.received)
  }

  /** Take the next free descriptor and make sure it has a buffer. */
  function InitializeOne(p: Pools, alloc: bool): Pools
    requires p.free != []
  {
    var d := Last(p.free);
    var q := p.(free := Front(p.free));
    if d !in p.buffered && !alloc then q.(outOfBuf := [d] + q.outOfBuf)
    else q.(free := [d] + q.free, buffered := q.buffered + {d})
  }

  /** Look at `n` descriptors of the free queue in turn. */
  function Initialize(p: Pools, n: nat, alloc: nat -> bool): Pools
    requires n <= |p.free|
    decreases n
  {
    if n == 0 then p
    else Initialize(InitializeOne(p, alloc(Last(p.free))), n - 1, alloc)
  }

  /** The descriptor that leaves the received queue is nowhere else. */
  lemma LastIsOnlyHere(p: Pools)
    requires Sound(p) && p.received != []
    ensures var d := Last(p.received); d !in Front(p.received) && d !in p.free && d !in p.ring
  {
    PopLast(p.received);
    assert All(p)[Last(p.received)] <= 1;
  }

  lemma IndicateOneConserves(p: Pools, tasklet: bool, frame: Frame, alloc: bool)
    requires p.received != []
    ensures All(IndicateOne(p, tasklet, frame, alloc)) == All(p)
  {
    PopLast(p.received);
  }

  lemma IndicateOneKeeps(p: Pools, tasklet: bool, frame: Frame, alloc: bool)
    requires Sound(p) && p.received != []
    ensures var r := IndicateOne(p, tasklet, frame, alloc); Sound(r) && All(r) == All(p)
  {
    LastIsOnlyHere(p);
    IndicateOneConserves(p, tasklet, frame, alloc);
    hide All;
  }

  function Reverse(s: seq<nat>): seq<nat> {
    if s == [] then [] else [Last(s)] + Reverse(Front(s))
  }

  function GoodOnes(s: seq<nat>, frames: nat -> Frame): seq<nat> {
    if s == [] then []
    else (if frames(s[0]).Good? then [s[0]] else []) + GoodOnes(s[1..], frames)
  }

  /** Indication loses no descriptor and leaves none received. */
  lemma {:induction false} IndicateKeeps(p: Pools, tasklet: bool, frames: nat -> Frame, alloc: nat -> bool)
    requires Sound(p)
    ensures var r := Indicate(p, tasklet, frames, alloc);
      Sound(r) && All(r) == All(p) && r.received == [] && r.ring == p.ring
    decreases |p.received|
  {
    hide Sound, All;
    if p.received != [] {
      var d := Last(p.received);
      IndicateOneKeeps(p, tasklet, frames(d), alloc(d));
      IndicateKeeps(IndicateOne(p, tasklet, frames(d), alloc(d)), tasklet, frames, alloc);
    }
  }

  lemma GoodOnesCons(d: nat, rest: seq<nat>, frames: nat -> Frame)
    ensures GoodOnes([d] + rest, frames)
         == (if frames(d).Good? then [d] else []) + GoodOnes(rest, frames)
  {
    assert ([d] + rest)[1..] == rest;
  }

  lemma IndicateOneDelivers(p: Pools, tasklet: bool, frame: Frame, alloc: bool)
    requires p.received != []
    ensures var r := IndicateOne(p, tasklet, frame, alloc);
      && r.received == Front(p.received)
      && r.delivered == p.delivered + if frame.Good? then [Last(p.received)] else []
  {
  }

  /** It hands up the good frames, each once, in the order of reception. */
  lemma {:induction false} IndicateDelivers(p: Pools, tasklet: bool, frames: nat -> Frame, alloc: nat -> bool)
    ensures Indicate(p, tasklet, frames, alloc).delivered
         == p.delivered + GoodOnes(Reverse(p.received), frames)
    decreases |p.received|
  {
    hide IndicateOne, GoodOnes, Reverse, Front, Last;
    if p.received == [] {
      NothingGood(p.received, frames);
      assert p.delivered + [] == p.delivered;
    } else {
      var d := Last(p.received);
      var q := IndicateOne(p, tasklet, frames(d), alloc(d));
      IndicateOneDelivers(p, tasklet, frames(d), alloc(d));
      FrontIsShorter(p.received);
      IndicateDelivers(q, tasklet, frames, alloc);
      ReverseIs(p.received);
      GoodOnesCons(d, Reverse(Front(p.received)), frames);
      Associate(p.delivered, if frames(d).Good? then [d] else [], GoodOnes(Reverse(Front(p.received)), frames));
    }
  }

  lemma NothingGood(s: seq<nat>, frames: nat -> Frame)
    requires s == []
    ensures GoodOnes(Reverse(s), frames) == []
  {
  }

  lemma FrontIsShorter(s: seq<nat>)
    requires s != []
    ensures |Front(s)| < |s|
  {
  }

  lemma ReverseIs(s: seq<nat>)
    requires s != []
    ensures Reverse(s) == [Last(s)] + Reverse(Front(s))
  {
  }

  lemma Associate(a: seq<nat>, b: seq<nat>, c: seq<nat>)
    ensures a + b + c == a + (b + c)
  {
  }

  lemma MoveToFree(p: Pools)
    requires Sound(p) && p.outOfBuf != []
    ensures var d := Last(p.outOfBuf);
      var q := p.(outOfBuf := Front(p.outOfBuf), free := [d] + p.free, buffered := p.buffered + {d});
      Sound(q) && All(q) == All(p)
  {
    PopLast(p.outOfBuf);
    var d := Last(p.outOfBuf);
    var q := p.(outOfBuf := Front(p.outOfBuf), free := [d] + p.free, buffered := p.buffered + {d});
    assert All(q) == All(p);
  }

  /** Replenishing loses no descriptor.  It reports failure only if the next
      waiting descriptor really got no buffer and still waits in its place;
      without a limit, no failure means that nothing waits any more. */
  lemma {:induction false} ReplenishKeeps(p: Pools, max: int, given: nat, alloc: nat -> bool)
    requires Sound(p)
    ensures var (r, failed, moved) := Replenish(p, max, given, alloc);
      && Sound(r) && All(r) == All(p)
      && r.outOfBuf <= p.outOfBuf && |r.free| == |p.free| + |p.outOfBuf| - |r.outOfBuf|
      && (moved <==> r.outOfBuf != p.outOfBuf)
      && (failed ==> r.outOfBuf != [] && Last(r.outOfBuf) !in r.buffered && !alloc(Last(r.outOfBuf)))
      && (max <= 0 ==> (failed <==> r.outOfBuf != []))
    decreases |p.outOfBuf|
  {
    hide Sound, All;
    if p.outOfBuf != [] {
      var d := Last(p.outOfBuf);
      var q := p.(outOfBuf := Front(p.outOfBuf), free := [d] + p.free, buffered := p.buffered + {d});
      MoveToFree(p);
      if d in p.buffered {
        ReplenishKeeps(q, max, given, alloc);
      } else if alloc(d) && !(max > 0 && given + 1 >= max) {
        ReplenishKeeps(q, max, if max > 0 then given + 1 else given, alloc);
      }
    }
  }

  lemma LendKeeps(p: Pools)
    requires Sound(p) && p.free != []
    ensures var q := p.(free := Front(p.free), ring := p.ring + [Last(p.free)]); Sound(q) && All(q) == All(p)
  {
    PopLast(p.free);
    var q := p.(free := Front(p.free), ring := p.ring + [Last(p.free)]);
    assert All(q) == All(p);
    hide All;
  }

  lemma {:induction false} QueueRxKeeps(p: Pools, limit: nat)
    requires Sound(p)
    ensures var r := QueueRx(p, limit); Sound(r) && All(r) == All(p)
    decreases limit
  {
    hide Sound, All;
    if limit > 0 && p.free != [] {
      LendKeeps(p);
      QueueRxKeeps(p.(free := Front(p.free), ring := p.ring + [Last(p.free)]), limit - 1);
    }
  }

  lemma ReceiveKeeps(p: Pools, k: nat)
    requires Sound(p) && k < |p.ring|
    ensures Sound(Receive(p, k)) && All(Receive(p, k)) == All(p)
  {
    assert p.ring == p.ring[..k] + [p.ring[k]] + p.ring[k + 1..];
    assert All(Receive(p, k)) == All(p);
  }

  /** Only the descriptors not yet looked at may lack a buffer. */
  ghost predicate Started(p: Pools, n: nat) {
    && n <= |p.free|
    && (forall d :: All(p)[d] <= 1)
    && (forall d :: d in p.received || d in p.ring ==> d in p.buffered)
    && (forall i :: 0 <= i < |p.free| - n ==> p.free[i] in p.buffered)
  }

  lemma InitializeOneKeeps(p: Pools, n: nat, alloc: bool)
    requires Started(p, n) && n > 0
    ensures var r := InitializeOne(p, alloc); Started(r, n - 1) && All(r) == All(p)
  {
    PopLast(p.free);
    assert All(InitializeOne(p, alloc)) == All(p);
  }

  lemma AllStarted(p: Pools)
    requires Started(p, 0)
    ensures Sound(p)
  {
    hide All;
  }

  lemma StartedBound(p: Pools, n: nat)
    requires Started(p, n)
    ensures n <= |p.free|
  {
  }

  /** After every descriptor of the free queue has been looked at once the
      pools are sound, whatever allocations failed. */
  lemma {:induction false} InitializeSound(p: Pools, n: nat, alloc: nat -> bool)
    requires Started(p, n)
    ensures var r := Initialize(p, n, alloc); Sound(r) && All(r) == All(p)
    decreases n
  {
    hide Started, Sound, All;
    if n == 0 {
      AllStarted(p);
    } else {
      StartedBound(p, n);
      InitializeOneKeeps(p, n, alloc(Last(p.free)));
      InitializeSound(InitializeOne(p, alloc(Last(p.free))), n - 1, alloc);
    }
  }

  // ----- where descriptors go -----

  /** Those of a queue for which f holds, in their order. */
  function Where(s: seq<nat>, f: nat -> bool): seq<nat> {
    if s == [] then [] else Where(Front(s), f) + if f(Last(s)) then [Last(s)] else []
  }

  lemma {:induction false} WhereSame(s: seq<nat>, f: nat -> bool, g: nat -> bool)
    requires forall d: nat :: f(d) == g(d)
    ensures Where(s, f) == Where(s, g)
  {
    if s != [] {
      WhereSame(Front(s), f, g);
    }
  }

  /** A descriptor needs a new buffer and does not get one at once. */
  function Waits(tasklet: bool, frames: nat -> Frame, alloc: nat -> bool): nat -> bool {
    (d: nat) => tasklet || (!frames(d).BadFrame? && !alloc(d))
  }

  function Ready(tasklet: bool, frames: nat -> Frame, alloc: nat -> bool): nat -> bool {
    (d: nat) => !tasklet && (frames(d).BadFrame? || alloc(d))
  }

  /** One more descriptor goes in front of those that went before. */
  lemma WhereAndRest(s: seq<nat>, f: nat -> bool, rest: seq<nat>)
    requires s != []
    ensures Where(s, f) + rest == Where(Front(s), f) + ((if f(Last(s)) then [Last(s)] else []) + rest)
  {
  }

  /** Every received descriptor goes to the free queue if it kept its buffer or got a
      new one, and else to the queue of those that wait, in order. */
  lemma {:induction false} IndicateSorts(p: Pools, tasklet: bool, frames: nat -> Frame, alloc: nat -> bool)
    ensures var r := Indicate(p, tasklet, frames, alloc);
      && r.free == Where(p.received, Ready(tasklet, frames, alloc)) + p.free
      && r.outOfBuf == Where(p.received, Waits(tasklet, frames, alloc)) + p.outOfBuf
    decreases |p.received|
  {
    if p.received == [] {
      assert [] + p.free == p.free && [] + p.outOfBuf == p.outOfBuf;
    } else {
      var d := Last(p.received);
      var q := IndicateOne(p, tasklet, frames(d), alloc(d));
      IndicateSorts(q, tasklet, frames, alloc);
      WhereAndRest(p.received, Ready(tasklet, frames, alloc), p.free);
      WhereAndRest(p.received, Waits(tasklet, frames, alloc), p.outOfBuf);
      assert [] + p.free == p.free && [] + p.outOfBuf == p.outOfBuf;
    }
  }

  lemma {:induction false} IndicateOthers(
    p: Pools, tasklet: bool, frames: nat -> Frame, alloc: nat -> bool, d: nat)
    requires d !in p.received
    ensures d in Indicate(p, tasklet, frames, alloc).buffered <==> d in p.buffered
    decreases |p.received|
  {
    if p.received != [] {
      var l := Last(p.received);
      IndicateOthers(IndicateOne(p, tasklet, frames(l), alloc(l)), tasklet, frames, alloc, d);
    }
  }

  predicate NoRepeat(s: seq<nat>) {
    forall i, j :: 0 <= i < j < |s| ==> s[i] != s[j]
  }

  lemma LastOnce(s: seq<nat>)
    requires s != [] && NoRepeat(s)
    ensures NoRepeat(Front(s)) && Last(s) !in Front(s)
    ensures forall d :: d in s && d != Last(s) ==> d in Front(s)
  {
    assert s == Front(s) + [Last(s)];
  }

  lemma IndicateOneBuffers(p: Pools, tasklet: bool, frame: Frame, alloc: bool, d: nat)
    requires p.received != []
    ensures var q := IndicateOne(p, tasklet, frame, alloc);
      && q.received == Front(p.received)
      && (d != Last(p.received) ==> (d in q.buffered <==> d in p.buffered))
      && (d == Last(p.received) && d in p.buffered ==>
            (d in q.buffered <==> frame.BadFrame? || (!tasklet && alloc)))
  {
  }

  lemma {:induction false} IndicateEach(
    p: Pools, tasklet: bool, frames: nat -> Frame, alloc: nat -> bool, d: nat)
    requires NoRepeat(p.received) && d in p.received && d in p.buffered
    ensures d in Indicate(p, tasklet, frames, alloc).buffered <==>
      frames(d).BadFrame? || (!tasklet && alloc(d))
    decreases |p.received|
  {
    var l := Last(p.received);
    LastOnce(p.received);
    IndicateOneBuffers(p, tasklet, frames(l), alloc(l), d);
    var q := IndicateOne(p, tasklet, frames(l), alloc(l));
    FrontIsShorter(p.received);
    hide IndicateOne, NoRepeat, Front, Last;
    if d == l {
      IndicateOthers(q, tasklet, frames, alloc, d);
    } else {
      IndicateEach(q, tasklet, frames, alloc, d);
    }
  }

  /** It has a buffer afterwards if its frame was bad or a new one could be had. */
  lemma IndicateBuffers(p: Pools, tasklet: bool, frames: nat -> Frame, alloc: nat -> bool, d: nat)
    requires Sound(p) && d in p.received
    ensures d in Indicate(p, tasklet, frames, alloc).buffered <==>
      frames(d).BadFrame? || (!tasklet && alloc(d))
  {
    OncePerQueue(p);
    hide Indicate, NoRepeat, All;
    IndicateEach(p, tasklet, frames, alloc, d);
  }

  lemma OncePerQueue(p: Pools)
    requires Sound(p)
    ensures NoRepeat(p.received)
  {
    var s := p.received;
    forall i, j | 0 <= i < j < |s| ensures s[i] != s[j] {
      assert All(p)[s[j]] <= 1;
      assert multiset(s)[s[j]] <= 1;
      if s[i] == s[j] {
        CountedTwice(s, i, j);
      }
    }
  }

  lemma CountedTwice(s: seq<nat>, i: nat, j: nat)
    requires i < j < |s| && s[i] == s[j]
    ensures multiset(s)[s[j]] > 1
  {
    assert s == s[..j] + [s[j]] + s[j + 1..];
    assert s[..j][i] == s[j];
  }

  /** How many of a queue lack a buffer, looked at from its head. */
  function Lacking(s: seq<nat>, buffered: set<nat>): nat {
    if s == [] then 0
    else (if Last(s) in buffered then 0 else 1) + Lacking(Front(s), buffered + {Last(s)})
  }

  lemma MovedMore(s: seq<nat>, n: nat)
    requires s != [] && n <= |s| - 1
    ensures s[n..] == Front(s)[n..] + [Last(s)]
    ensures Front(s[n..]) == Front(s)[n..] && Last(s[n..]) == Last(s) && s[n..] != []
  {
  }

  /** Waiting descriptors have moved from the head of their queue to the free queue.
      Each had a buffer or got one; no more than `max` were given, and it ended early
      only because no buffer could be had or `max` have been given. */
  ghost predicate MovedTo(p: Pools, r: Pools, failed: bool, max: int, given: nat, alloc: nat -> bool) {
    && |r.outOfBuf| <= |p.outOfBuf|
    && var moved := p.outOfBuf[|r.outOfBuf|..];
    && r == p.(outOfBuf := r.outOfBuf, free := moved + p.free, buffered := r.buffered)
    && p.buffered <= r.buffered
    && (forall d :: d in moved ==> d in r.buffered && (d in p.buffered || alloc(d)))
    && (max > 0 ==> given + Lacking(moved, p.buffered) <= max)
    && (r.outOfBuf != [] && !failed ==> max > 0 && given + Lacking(moved, p.buffered) == max)
  }

  lemma NothingMoved(p: Pools, failed: bool, max: int, given: nat, alloc: nat -> bool)
    requires (max > 0 ==> given <= max) && (failed || p.outOfBuf == [] || (max > 0 && given == max))
    ensures MovedTo(p, p, failed, max, given, alloc)
  {
    assert p.outOfBuf[|p.outOfBuf|..] == [] && [] + p.free == p.free;
  }

  /** One more was moved before. */
  lemma MovedOne(p: Pools, r: Pools, failed: bool, max: int, given: nat, alloc: nat -> bool)
    requires p.outOfBuf != []
    requires var d := Last(p.outOfBuf);
      var q := p.(outOfBuf := Front(p.outOfBuf), free := [d] + p.free, buffered := p.buffered + {d});
      && (d in p.buffered || alloc(d))
      && MovedTo(q, r, failed, max, given + (if d in p.buffered then 0 else 1), alloc)
    ensures MovedTo(p, r, failed, max, given, alloc)
  {
    var d, n := Last(p.outOfBuf), |r.outOfBuf|;
    MovedMore(p.outOfBuf, n);
    var moved, later := p.outOfBuf[n..], Front(p.outOfBuf)[n..];
    assert Lacking(moved, p.buffered) == (if d in p.buffered then 0 else 1) + Lacking(later, p.buffered + {d});
    assert later + ([d] + p.free) == moved + p.free;
    hide Lacking, Front, Last;
    assert moved == later + [d];
  }

  lemma {:induction false} ReplenishMoves(p: Pools, max: int, given: nat, alloc: nat -> bool)
    requires max > 0 ==> given < max
    ensures var (r, failed, _) := Replenish(p, max, given, alloc); MovedTo(p, r, failed, max, given, alloc)
    decreases |p.outOfBuf|
  {
    hide MovedTo;
    if p.outOfBuf == [] {
      NothingMoved(p, false, max, given, alloc);
    } else {
      var d := Last(p.outOfBuf);
      var q := p.(outOfBuf := Front(p.outOfBuf), free := [d] + p.free, buffered := p.buffered + {d});
      var (r, failed, _) := Replenish(p, max, given, alloc);
      if d in p.buffered {
        ReplenishMoves(q, max, given, alloc);
        MovedOne(p, r, failed, max, given, alloc);
      } else if !alloc(d) {
        NothingMoved(p, true, max, given, alloc);
      } else if max > 0 && given + 1 >= max {
        NothingMoved(q, false, max, given + 1, alloc);
        MovedOne(p, r, failed, max, given, alloc);
      } else {
        ReplenishMoves(q, max, if max > 0 then given + 1 else given, alloc);
        GivenIrrelevant(q, r, failed, max, if max > 0 then given + 1 else given, given + 1, alloc);
        MovedOne(p, r, failed, max, given, alloc);
      }
    }
  }

  lemma GivenIrrelevant(
    p: Pools, r: Pools, failed: bool, max: int, given: nat, given': nat, alloc: nat -> bool)
    requires MovedTo(p, r, failed, max, given, alloc) && (max > 0 ==> given == given')
    ensures MovedTo(p, r, failed, max, given', alloc)
  {
  }

  /** As many free descriptors as there are, up to the limit, go to the hardware, the
      oldest first. */
  lemma {:induction false} QueueRxIs(p: Pools, limit: nat)
    ensures var n := if limit < |p.free| then limit else |p.free|;
      QueueRx(p, limit)
        == p.(free := p.free[..|p.free| - n], ring := p.ring + Reverse(p.free[|p.free| - n..]))
    decreases limit
  {
    if limit == 0 || p.free == [] {
      assert p.free[..|p.free|] == p.free && p.free[|p.free|..] == [] && p.ring + [] == p.ring;
    } else {
      var q := p.(free := Front(p.free), ring := p.ring + [Last(p.free)]);
      QueueRxIs(q, limit - 1);
      var n := if limit < |p.free| then limit else |p.free|;
      var k := |p.free| - n;
      MovedMore(p.free, k);
      assert Front(p.free)[..k] == p.free[..k];
      Associate(p.ring, [Last(p.free)], Reverse(Front(p.free)[k..]));
    }
  }

  /** Those of a queue that have a buffer or get one, or the others. */
  function Supplied(s: seq<nat>, buffered: set<nat>, alloc: nat -> bool, yes: bool): seq<nat> {
    if s == [] then []
    else
      var d := Last(s);
      Supplied(Front(s), buffered, alloc, yes) + if (d in buffered || alloc(d)) == yes then [d] else []
  }

  lemma {:induction false} SuppliedSame(s: seq<nat>, buffered: set<nat>, d: nat, alloc: nat -> bool, yes: bool)
    requires d in buffered || alloc(d)
    ensures Supplied(s, buffered + {d}, alloc, yes) == Supplied(s, buffered, alloc, yes)
  {
    if s != [] {
      SuppliedSame(Front(s), buffered, d, alloc, yes);
    }
  }

  /** The next n descriptors of the free queue, and the ones behind them. */
  function Seen(p: Pools, n: nat): seq<nat>
    requires n <= |p.free|
  {
    p.free[|p.free| - n..]
  }

  function Unseen(p: Pools, n: nat): seq<nat>
    requires n <= |p.free|
  {
    p.free[..|p.free| - n]
  }

  /** Of the descriptors looked at, those with a buffer, old or new, stay free, and
      the others wait. */
  ghost predicate Sorted(p: Pools, n: nat, r: Pools, alloc: nat -> bool)
    requires n <= |p.free|
  {
    && Puts(Seen(p, n), p.buffered, alloc, true, Unseen(p, n), r.free)
    && Puts(Seen(p, n), p.buffered, alloc, false, p.outOfBuf, r.outOfBuf)
  }

  /** The descriptors of one kind are put in front of a queue. */
  predicate Puts(
    seen: seq<nat>, buffered: set<nat>, alloc: nat -> bool, yes: bool, queue: seq<nat>, result: seq<nat>)
  {
    result == Supplied(seen, buffered, alloc, yes) + queue
  }

  lemma {:induction false} InitializeSorts(p: Pools, n: nat, alloc: nat -> bool)
    requires n <= |p.free|
    ensures Sorted(p, n, Initialize(p, n, alloc), alloc)
    decreases n
  {
    hide Sorted;
    if n == 0 {
      NothingSorted(p, alloc);
    } else {
      var q := InitializeOne(p, alloc(Last(p.free)));
      InitializeSorts(q, n - 1, alloc);
      SortedOne(p, n, Initialize(p, n, alloc), alloc);
    }
  }

  lemma NothingSorted(p: Pools, alloc: nat -> bool)
    ensures Sorted(p, 0, p, alloc)
  {
    assert p.free[..|p.free|] == p.free && p.free[|p.free|..] == [];
    assert [] + p.free == p.free && [] + p.outOfBuf == p.outOfBuf;
  }

  lemma SortedOne(p: Pools, n: nat, r: Pools, alloc: nat -> bool)
    requires 0 < n <= |p.free|
    requires var q := InitializeOne(p, alloc(Last(p.free))); n - 1 <= |q.free| && Sorted(q, n - 1, r, alloc)
    ensures Sorted(p, n, r, alloc)
  {
    OneLookedAt(p, n, alloc);
    hide InitializeOne, Front, Last, Puts, Seen, Unseen;
    PutOne(Seen(p, n), p.buffered, alloc, true, Unseen(p, n), r.free);
    PutOne(Seen(p, n), p.buffered, alloc, false, p.outOfBuf, r.outOfBuf);
  }

  lemma PutOne(
    seen: seq<nat>, buffered: set<nat>, alloc: nat -> bool, yes: bool, queue: seq<nat>, result: seq<nat>)
    requires seen != []
    requires var d := Last(seen);
      var has := d in buffered || alloc(d);
      Puts(Front(seen), if has then buffered + {d} else buffered, alloc, yes,
           (if has == yes then [d] else []) + queue, result)
    ensures Puts(seen, buffered, alloc, yes, queue, result)
  {
    var d := Last(seen);
    if d in buffered || alloc(d) {
      SuppliedSame(Front(seen), buffered, d, alloc, yes);
    }
  }

  /** What looking at one descriptor does to the parts of the free queue. */
  lemma OneLookedAt(p: Pools, n: nat, alloc: nat -> bool)
    requires 0 < n <= |p.free|
    ensures var (d, q) := (Last(p.free), InitializeOne(p, alloc(Last(p.free))));
      var has := d in p.buffered || alloc(d);
      && n - 1 <= |q.free| && Seen(p, n) != [] && Last(Seen(p, n)) == d
      && Seen(q, n - 1) == Front(Seen(p, n))
      && Unseen(q, n - 1) == (if has == true then [d] else []) + Unseen(p, n)
      && q.outOfBuf == (if has == false then [d] else []) + p.outOfBuf
      && q.buffered == (if has then p.buffered + {d} else p.buffered)
  {
    assert Front(p.free) == Unseen(p, n) + Front(Seen(p, n));
    assert [] + p.outOfBuf == p.outOfBuf;
  }

  datatype Event =
    | Indicated(tasklet: bool, frames: nat -> Frame, alloc: nat -> bool)
    | Replenished(max: int, allocs: nat -> bool, limit: nat)
    | Queued(limit: nat)
    | Received(slot: nat)

  function Happen(p: Pools, e: Event): Pools {
    match e
    case Indicated(tasklet, frames, alloc) => Indicate(p, tasklet, frames, alloc)
    case Replenished(max, alloc, limit) => QueueRx(Replenish(p, max, 0, alloc).0, limit)
    case Queued(limit) => QueueRx(p, limit)
    case Received(k) => if k < |p.ring| then Receive(p, k) else p
  }

  function Run(p: Pools, events: seq<Event>): Pools
    decreases |events|
  {
    if events == [] then p else Run(Happen(p, events[0]), events[1..])
  }

  /** Over any run, with any allocation failures, no descriptor is lost or
      doubled and every free one holds a buffer. */
  lemma {:induction false} RunConserves(p: Pools, events: seq<Event>)
    requires Sound(p)
    ensures Sound(Run(p, events)) && All(Run(p, events)) == All(p)
    decreases |events|
  {
    if events != [] {
      hide Sound, All;
      match events[0] {
        case Indicated(tasklet, frames, alloc) => IndicateKeeps(p, tasklet, frames, alloc);
        case Replenished(max, alloc, limit) =>
          ReplenishKeeps(p, max, 0, alloc);
          QueueRxKeeps(Replenish(p, max, 0, alloc).0, limit);
        case Queued(limit) => QueueRxKeeps(p, limit);
        case Received(k) => if k < |p.ring| { ReceiveKeeps(p, k); }
      }
      RunConserves(Happen(p, events[0]), events[1..]);
    }
  }
}
