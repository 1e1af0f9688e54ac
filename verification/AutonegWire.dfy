/** What the auto-negotiation machine sends, when it starts over, and that it gets to a
    link with a partner that answers. */
module AutonegWire {
  import opened Autoneg

  // ----- what goes out -----

  /** After a poll that leaves the machine in this state: zero words while it
      restarts, then what it advertises, then the same with the acknowledge bit, and
      idle at the end. */
  predicate Sends(i: Info) {
    match i.state
    case Restart => i.sending && i.tx == Zero
    case AbilityDetectInit => i.sending && i.tx == Zero
    case AbilityDetect => i.sending && i.tx == Advertise(i.adv)
    case AckDetectInit => i.sending && i.tx == Advertise(i.adv)
    case AckDetect => i.sending && i.tx == Advertise(i.adv).(ack := true)
    case CompleteAckInit => i.sending && i.tx == Advertise(i.adv).(ack := true)
    case CompleteAck => i.sending && i.tx == Advertise(i.adv).(ack := true)
    case IdleDetectInit => i.sending && i.tx == Advertise(i.adv).(ack := true)
    case IdleDetect => !i.sending
    case LinkOk => !i.sending
    case _ => true
  }

  /** Nothing that is heard changes what is sent. */
  lemma Hearing(i: Info, p: Poll)
    ensures exists j: Info :: Heard(i, j) && Step(i, p) == Advance(j)
  {
    var begin := i.state.Unknown?;
    var j := i.(now := if begin then 0 else p.now, linkTime := if begin then 0 else i.linkTime,
                matcher := Match(if begin then NoMatch else i.matcher, p), rx := WordOf(p));
    assert Heard(i, j) && Step(i, p) == Advance(j);
  }

  predicate Heard(i: Info, j: Info) {
    j == i.(now := j.now, linkTime := j.linkTime, matcher := j.matcher, rx := j.rx)
  }

  lemma EarlySends(i: Info)
    requires Sends(i) && Rank(i.state) <= 4
    ensures var j := Advance(i).0; Sends(j) && j.adv == i.adv && j.enable == i.enable
  {
    hide Elapsed, IsClean, Advertise, Zero;
  }

  lemma AckSends(i: Info)
    requires Sends(i) && Rank(i.state) == 5
    ensures var j := Advance(i).0; Sends(j) && j.adv == i.adv && j.enable == i.enable
  {
    hide Elapsed, IsClean, Advertise, Zero;
  }

  lemma LateSends(i: Info)
    requires Sends(i) && Rank(i.state) > 5
    ensures var j := Advance(i).0; Sends(j) && j.adv == i.adv && j.enable == i.enable
  {
    hide Elapsed, IsClean, Advertise, Zero, AckDetecting, Restarting, Enabled;
  }

  /** In every run, after every poll. */
  lemma {:induction false} AlwaysSends(start: Info, polls: seq<Poll>, k: nat)
    requires Initial(start) && k <= |polls|
    ensures var i := After(start, polls, k); Sends(i) && i.adv == start.adv && i.enable == start.enable
    decreases k
  {
    hide Sends, Step, Advance;
    if k == 0 {
      StartSends(start);
    } else {
      AlwaysSends(start, polls, k - 1);
      var i := After(start, polls, k - 1);
      Hearing(i, polls[k - 1]);
      var j :| Heard(i, j) && Step(i, polls[k - 1]) == Advance(j);
      SendsHeard(i, j);
      if Rank(j.state) <= 4 {
        EarlySends(j);
      } else if Rank(j.state) == 5 {
        AckSends(j);
      } else {
        LateSends(j);
      }
    }
  }

  lemma StartSends(i: Info)
    requires Initial(i)
    ensures Sends(i)
  {
  }

  lemma SendsHeard(i: Info, j: Info)
    requires Heard(i, j) && Sends(i)
    ensures Sends(j)
  {
  }

  // ----- what is recorded -----

  /** Registers along the way: a page has been received once the partner's word is
      taken over, and a link is not made if both sides want next pages. */
  predicate Records(i: Info) {
    && (1 <= Rank(i.state) <= 6 ==> !i.regs.pageRx && !i.regs.complete)
    && (4 <= Rank(i.state) <= 6 ==> !i.regs.toggleTx)
    && (Rank(i.state) >= 7 ==> i.regs.pageRx && i.regs.toggleTx && i.regs.npRx == i.regs.partner.nextPage)
    && (Rank(i.state) >= 8 ==> !(i.adv.nextPage && i.regs.partner.nextPage))
  }

  lemma EarlyRecords(i: Info)
    requires Records(i) && Rank(i.state) <= 4
    ensures Records(Advance(i).0)
  {
    hide Elapsed, IsClean, Advertise, Zero, AckDetecting, CompletingAck;
  }

  lemma AckRecords(i: Info)
    requires Records(i) && Rank(i.state) == 5
    ensures Records(Advance(i).0)
  {
    hide Elapsed, IsClean, Advertise, Zero, Restarting, CompletingAck, Enabled;
  }

  lemma LateRecords(i: Info)
    requires Sends(i) && Records(i) && Rank(i.state) > 5
    ensures Records(Advance(i).0)
  {
    hide Elapsed, IsClean, Zero, AckDetecting, Restarting, Enabled;
  }

  lemma {:induction false} AlwaysRecords(start: Info, polls: seq<Poll>, k: nat)
    requires Initial(start) && k <= |polls|
    ensures Records(After(start, polls, k))
    decreases k
  {
    hide Sends, Records, Step, Advance;
    if k == 0 {
      NothingRecorded(start);
    } else {
      AlwaysRecords(start, polls, k - 1);
      AlwaysSends(start, polls, k - 1);
      var i := After(start, polls, k - 1);
      Hearing(i, polls[k - 1]);
      var j :| Heard(i, j) && Step(i, polls[k - 1]) == Advance(j);
      SendsHeard(i, j);
      RecordsHeard(i, j);
      if Rank(j.state) <= 4 {
        EarlyRecords(j);
      } else if Rank(j.state) == 5 {
        AckRecords(j);
      } else {
        LateRecords(j);
      }
    }
  }

  lemma NothingRecorded(i: Info)
    requires Initial(i)
    ensures Records(i)
  {
  }

  lemma RecordsHeard(i: Info, j: Info)
    requires Heard(i, j) && Records(i)
    ensures Records(j)
  {
  }

  /** A machine that is not enabled stays out of it. */
  lemma {:induction false} DisabledForGood(start: Info, polls: seq<Poll>, k: nat)
    requires Initial(start) && !start.enable && 1 <= k <= |polls|
    ensures Disabled(After(start, polls, k))
    decreases k
  {
    hide Step, Disabled;
    DisabledStep(After(start, polls, k - 1), polls[k - 1]);
    if k > 1 {
      DisabledForGood(start, polls, k - 1);
    }
  }

  predicate Disabled(i: Info) {
    i.state.DisableLinkOk? && !i.regs.complete && !i.enable
  }

  lemma DisabledStep(i: Info, p: Poll)
    ensures Disabled(i) || (Initial(i) && !i.enable) ==> Disabled(Step(i, p).0)
  {
    hide Match, Elapsed, IsClean, Restarting, AckDetecting, CompletingAck, WordOf;
  }

  /** What a poll reports: done in the two final states; failed if the partner's word
      has reserved bits set, or if both sides want next pages when the wait is over. */
  lemma StatusIff(i: Info, p: Poll)
    ensures Step(i, p).1 == Done <==> i.state.DisableLinkOk? || i.state.LinkOk?
    ensures Step(i, p).1 == Failed <==>
      || (i.state.CompleteAckInit? && !IsClean(WordOf(p)))
      || (i.state.CompleteAck? && !(Match(i.matcher, p).ability && WordOf(p) == Zero)
          && Elapsed(p.now, i.linkTime) > LinkTimer && i.adv.nextPage && i.regs.partner.nextPage
          && (i.tx.ability.nextPage || i.regs.npRx))
  {
    hide Elapsed, IsClean, Match, Zero;
  }

  // ----- starting over -----

  /** The match counter and the flag agree. */
  predicate Counting(m: Matcher) {
    m.cnt > 1 ==> m.ability
  }

  lemma MatchCounts(m: Matcher, p: Poll)
    requires Counting(m)
    ensures Counting(Match(m, p))
  {
  }

  lemma AdvanceMatcher(i: Info)
    ensures Advance(i).0.matcher == (if Starting(i.state) && i.enable then NoMatch else i.matcher)
  {
    hide Elapsed, IsClean, Advertise;
  }

  lemma StepMatcher(i: Info, p: Poll)
    requires !Starting(i.state)
    ensures Step(i, p).0.matcher == Match(i.matcher, p)
  {
    var j := i.(now := p.now, matcher := Match(i.matcher, p), rx := WordOf(p));
    AdvanceMatcher(j);
    hide Advance, Match;
  }

  lemma StepCounts(i: Info, p: Poll)
    requires i.state.Unknown? || Counting(i.matcher)
    ensures Counting(Step(i, p).0.matcher)
  {
    var begin := i.state.Unknown?;
    var m := if begin then NoMatch else i.matcher;
    NoneCounted();
    MatchCounts(m, p);
    var j := i.(now := if begin then 0 else p.now, linkTime := if begin then 0 else i.linkTime,
                matcher := Match(m, p), rx := WordOf(p));
    AdvanceMatcher(j);
    hide Advance, Match, WordOf, Counting;
  }

  lemma NoneCounted()
    ensures Counting(NoMatch)
  {
  }

  lemma {:induction false} AlwaysCounting(start: Info, polls: seq<Poll>, k: nat)
    requires Initial(start) && k <= |polls|
    ensures k > 0 ==> Counting(After(start, polls, k).matcher)
    decreases k
  {
    hide Step, Counting;
    if k > 0 {
      AlwaysCounting(start, polls, k - 1);
      StepCounts(After(start, polls, k - 1), polls[k - 1]);
    }
  }

  predicate IsZero(p: Poll) {
    p.receiving && p.config == Zero
  }

  /** The zero word for the third time in a row is recognised. */
  lemma ZeroThrice(m: Matcher, p: Poll, q: Poll, r: Poll)
    requires Counting(m) && IsZero(p) && IsZero(q) && IsZero(r)
    ensures Match(Match(Match(m, p), q), r).ability
  {
    hide Zero;
  }

  lemma ZeroRestarts(i: Info, p: Poll)
    requires i.state in {AckDetect, CompleteAck, IdleDetect} && IsZero(p) && Match(i.matcher, p).ability
    ensures Step(i, p).0.state == AnEnable
  {
    hide Elapsed, IsClean, Match;
    assert Match(i.matcher, p).ack == false by {
      MatchAck(i.matcher, p);
    }
  }

  lemma MatchAck(m: Matcher, p: Poll)
    ensures p.receiving ==> Match(m, p).ack == p.config.ack
  {
  }

  /** A partner that sends the zero word three times in a row, because it starts over,
      makes the machine start over, until the link is there. */
  lemma PartnerRestarts(start: Info, polls: seq<Poll>, k: nat)
    requires Initial(start) && k + 3 <= |polls|
    requires IsZero(polls[k]) && IsZero(polls[k + 1]) && IsZero(polls[k + 2])
    requires !Starting(After(start, polls, k).state) && !Starting(After(start, polls, k + 1).state)
    requires After(start, polls, k + 2).state in {AckDetect, CompleteAck, IdleDetect}
    ensures After(start, polls, k + 3).state == AnEnable
  {
    AlwaysCounting(start, polls, k);
    var a, b, c := After(start, polls, k), After(start, polls, k + 1), After(start, polls, k + 2);
    StepMatcher(a, polls[k]);
    StepMatcher(b, polls[k + 1]);
    hide Step, Match, IsZero;
    ZeroThrice(a.matcher, polls[k], polls[k + 1], polls[k + 2]);
    ZeroRestarts(c, polls[k + 2]);
  }

  // ----- getting there -----

  /** A word that a partner repeats: it acknowledges, has clear reserved bits, and
      next pages are not wanted on both sides. */
  predicate Agreeable(i: Info, w: Word) {
    w != Zero && IsClean(w) && w.ack && !(i.adv.nextPage && w.ability.nextPage)
  }

  /** From poll k on the partner repeats w, and polls are far apart. */
  ghost predicate Steady(polls: seq<Poll>, k: nat, w: Word) {
    && (forall j :: k <= j < |polls| ==> polls[j].receiving && polls[j].config == w)
    && (forall j :: k <= j < |polls| - 1 ==> polls[j + 1].now - polls[j].now > LinkTimer)
    && (forall j :: k <= j < |polls| ==> polls[j].now < TimeWrap)
  }

  /** The machine on its way, n polls after it was enabled. */
  predicate OnTheWay(i: Info, n: nat, w: Word, last: nat) {
    && (n >= 2 ==> i.matcher.cfg == w && (i.matcher.ability <==> n >= 4) && i.matcher.cnt == n - 2)
    && (n == 1 ==> i.matcher == NoMatch && i.state == RestartInit)
    && (n == 2 ==> i.state == Restart && i.linkTime == last)
    && (n == 3 ==> i.state == AbilityDetectInit)
    && (n == 4 ==> i.state == AbilityDetect)
    && (n == 5 ==> i.state == AckDetectInit)
    && (n == 6 ==> i.state == CompleteAckInit)
    && (n == 7 ==> i.state == CompleteAck && i.linkTime == last)
    && (n == 8 ==> i.state == IdleDetectInit)
    && (n == 9 ==> i.state == IdleDetect && i.linkTime == last)
    && (n == 10 ==> i.state == LinkOk)
    && (n == 11 ==> i.state == LinkOk && i.regs.complete && i.regs.linkOk)
    && (n >= 7 ==> i.regs.partner == w.ability)
  }

  lemma Enables(i: Info, p: Poll, w: Word)
    requires Starting(i.state) && i.enable
    ensures OnTheWay(Step(i, p).0, 1, w, p.now)
  {
    hide Match;
  }

  lemma FirstSteps(i: Info, n: nat, p: Poll, w: Word, last: nat)
    requires OnTheWay(i, n, w, last) && 1 <= n <= 5 && Agreeable(i, w) && p.receiving && p.config == w
    requires last < p.now < TimeWrap && p.now - last > LinkTimer
    ensures OnTheWay(Step(i, p).0, n + 1, w, p.now)
  {
    hide IsClean, Advertise;
  }

  lemma MiddleSteps(i: Info, n: nat, p: Poll, w: Word, last: nat)
    requires OnTheWay(i, n, w, last) && 6 <= n <= 7 && Agreeable(i, w) && p.receiving && p.config == w
    requires last < p.now < TimeWrap && p.now - last > LinkTimer
    ensures OnTheWay(Step(i, p).0, n + 1, w, p.now)
  {
    hide Advertise, Enabled, Restarting, AckDetecting;
  }

  lemma LastSteps(i: Info, n: nat, p: Poll, w: Word, last: nat)
    requires OnTheWay(i, n, w, last) && 8 <= n <= 10 && Agreeable(i, w) && p.receiving && p.config == w
    requires last < p.now < TimeWrap && p.now - last > LinkTimer
    ensures OnTheWay(Step(i, p).0, n + 1, w, p.now)
  {
    hide Advertise, Enabled, Restarting, AckDetecting, CompletingAck, IsClean;
  }

  lemma {:induction false} Progress(start: Info, polls: seq<Poll>, k: nat, w: Word, n: nat)
    requires Initial(start) && start.enable && 1 <= n <= 11 && k + n <= |polls|
    requires Starting(After(start, polls, k).state) && Steady(polls, k, w) && Agreeable(start, w)
    ensures OnTheWay(After(start, polls, k + n), n, w, polls[k + n - 1].now)
    decreases n
  {
    hide Step, OnTheWay, IsClean;
    if n == 1 {
      AlwaysSends(start, polls, k);
      Enables(After(start, polls, k), polls[k], w);
    } else {
      Progress(start, polls, k, w, n - 1);
      AlwaysSends(start, polls, k + n - 1);
      var i, p, last := After(start, polls, k + n - 1), polls[k + n - 1], polls[k + n - 2].now;
      assert polls[k + n - 2 + 1].now - polls[k + n - 2].now > LinkTimer;
      if n - 1 <= 5 {
        FirstSteps(i, n - 1, p, w, last);
      } else if n - 1 <= 7 {
        MiddleSteps(i, n - 1, p, w, last);
      } else {
        LastSteps(i, n - 1, p, w, last);
      }
    }
  }

  /** With a partner that answers, polled further apart than the link timer, the
      eleventh poll after enabling completes, and the partner is recorded. */
  lemma LinkIsReached(start: Info, polls: seq<Poll>, k: nat, w: Word)
    requires Initial(start) && start.enable && k + 11 <= |polls|
    requires Starting(After(start, polls, k).state) && Steady(polls, k, w) && Agreeable(start, w)
    ensures var i := After(start, polls, k + 11);
      i.state == LinkOk && i.regs.complete && i.regs.linkOk && i.regs.partner == w.ability
  {
    Progress(start, polls, k, w, 11);
    hide After;
  }
}
