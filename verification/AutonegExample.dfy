/** A run in which the partner changes its mind after it has been matched. */
module AutonegExample {
  import opened Autoneg

  const FullDuplex: Word := Advertise(Zero.ability.(fullDuplex := true))
  const BareAck: Word := Zero.(ack := true)

  /** A partner that advertises full duplex until it is matched and then goes on
      with a word that advertises nothing but has the acknowledge bit. */
  const ChangingPartner: seq<Poll> := [
    Poll(0, false, Zero), Poll(0, true, FullDuplex), Poll(12001, true, FullDuplex),
    Poll(12002, true, FullDuplex), Poll(12003, true, FullDuplex),
    Poll(12004, true, BareAck), Poll(12005, true, BareAck), Poll(24006, true, BareAck),
    Poll(24007, true, BareAck), Poll(36008, true, BareAck)]

  lemma Starts(i: Info, p: Poll)
    requires i.state.Unknown? && i.enable
    ensures var j := Step(i, p).0; j.state == RestartInit && j.matcher == NoMatch
  {
    hide Match;
  }

  /** How the matcher counts a repeated word. */
  lemma Matches(m: Matcher, p: Poll)
    requires p.receiving && p.config != Zero
    ensures m == NoMatch ==> Match(m, p).cfg == p.config && Match(m, p).cnt == 0
    ensures m.cfg == p.config && m.cnt < 5 ==> Match(m, p).cfg == p.config && Match(m, p).cnt == m.cnt + 1
    ensures m.cfg == p.config && m.cnt < 5 && m.cnt >= 1 ==> Match(m, p).ability
  {
  }

  lemma Restarts(i: Info, p: Poll)
    requires i.state == RestartInit
    ensures var j := Step(i, p).0;
      j.state == Restart && j.linkTime == p.now && j.matcher == Match(i.matcher, p)
  {
    hide Match;
  }

  lemma Waits(i: Info, p: Poll)
    requires i.state == Restart && LinkTimer < p.now - i.linkTime < TimeWrap
    ensures var j := Step(i, p).0; j.state == AbilityDetectInit && j.matcher == Match(i.matcher, p)
  {
    hide Match;
  }

  lemma Detects(i: Info, p: Poll)
    ensures i.state == AbilityDetectInit ==>
      var j := Step(i, p).0; j.state == AbilityDetect && j.matcher == Match(i.matcher, p)
    ensures i.state == AbilityDetect && Match(i.matcher, p).ability && WordOf(p) != Zero ==>
      var j := Step(i, p).0; j.state == AckDetectInit && j.matcher == Match(i.matcher, p)
  {
    hide Match;
  }

  lemma Acknowledged(i: Info, p: Poll)
    requires p == Poll(p.now, true, BareAck)
    ensures i.state == AckDetectInit ==> Step(i, p).0.state == CompleteAckInit
    ensures i.state == CompleteAckInit ==>
      var j := Step(i, p).0; j.state == CompleteAck && j.linkTime == p.now && j.regs.partner == Zero.ability
  {
    if i.state == AckDetectInit {
      AckCheckIsVacuous(i, p);
    } else if i.state == CompleteAckInit {
      hide Match, AckDetecting;
    }
  }

  lemma Completes(i: Info, p: Poll)
    requires i.state == CompleteAck && LinkTimer < p.now - i.linkTime < TimeWrap
    requires p == Poll(p.now, true, BareAck) && i.regs.partner == Zero.ability
    ensures var j := Step(i, p).0; j.state == IdleDetectInit && j.regs == i.regs
  {
    hide Match;
  }

  lemma Idles(i: Info, p: Poll)
    requires p == Poll(p.now, true, BareAck)
    ensures i.state == IdleDetectInit ==>
      var j := Step(i, p).0; j.state == IdleDetect && j.linkTime == p.now && j.regs == i.regs
    ensures i.state == IdleDetect && LinkTimer < p.now - i.linkTime < TimeWrap ==>
      var j := Step(i, p).0; j.state == LinkOk && j.regs == i.regs
  {
    hide Match;
  }

  lemma AfterStep(start: Info, polls: seq<Poll>, k: nat)
    requires k < |polls|
    ensures After(start, polls, k + 1) == Step(After(start, polls, k), polls[k]).0
  {
  }

  lemma MatchedFullDuplex(start: Info)
    requires Initial(start) && start.enable
    ensures var i := After(start, ChangingPartner, 5); i.state.AckDetectInit? && i.matcher.cfg == FullDuplex
  {
    var polls := ChangingPartner;
    assert polls[1].config == FullDuplex && polls[4].config == FullDuplex;
    hide After, Step, Match;
    AfterStep(start, polls, 0);
    Starts(start, polls[0]);
    AfterStep(start, polls, 1);
    var i1 := After(start, polls, 1);
    Restarts(i1, polls[1]);
    Matches(i1.matcher, polls[1]);
    AfterStep(start, polls, 2);
    var i2 := After(start, polls, 2);
    Waits(i2, polls[2]);
    Matches(i2.matcher, polls[2]);
    AfterStep(start, polls, 3);
    var i3 := After(start, polls, 3);
    Detects(i3, polls[3]);
    Matches(i3.matcher, polls[3]);
    AfterStep(start, polls, 4);
    var i4 := After(start, polls, 4);
    Detects(i4, polls[4]);
    Matches(i4.matcher, polls[4]);
  }

  lemma ClockRuns()
    ensures Monotone(ChangingPartner)
  {
    var polls := ChangingPartner;
    var times := [0, 0, 12001, 12002, 12003, 12004, 12005, 24006, 24007, 36008];
    assert forall k :: 0 <= k < |polls| ==> polls[k].now == times[k];
    assert forall j, k :: 0 <= j <= k < |times| ==> times[j] <= times[k];
    hide ChangingPartner;
  }

  lemma RecordedBare(start: Info)
    requires Initial(start) && start.enable
    ensures var i := After(start, ChangingPartner, 7);
      i.state.CompleteAck? && i.linkTime == 12005 && i.regs.partner == Zero.ability
  {
    var polls := ChangingPartner;
    MatchedFullDuplex(start);
    assert polls[5] == Poll(12004, true, BareAck) && polls[6] == Poll(12005, true, BareAck);
    hide After, Step, Initial, ChangingPartner;
    AfterStep(start, polls, 5);
    Acknowledged(After(start, polls, 5), polls[5]);
    AfterStep(start, polls, 6);
    Acknowledged(After(start, polls, 6), polls[6]);
  }

  lemma LinkIsBare(start: Info)
    requires Initial(start) && start.enable
    ensures var i := After(start, ChangingPartner, 10); i.state.LinkOk? && i.regs.partner == Zero.ability
  {
    var polls := ChangingPartner;
    RecordedBare(start);
    assert polls[7] == Poll(24006, true, BareAck) && polls[8] == Poll(24007, true, BareAck);
    assert polls[9] == Poll(36008, true, BareAck);
    hide After, Step, Initial, ChangingPartner;
    AfterStep(start, polls, 7);
    Completes(After(start, polls, 7), polls[7]);
    AfterStep(start, polls, 8);
    Idles(After(start, polls, 8), polls[8]);
    AfterStep(start, polls, 9);
    Idles(After(start, polls, 9), polls[9]);
  }

  /** The partner may be recorded with abilities other than the ones that were
      matched: in this run, from the start to the link, full duplex was matched and
      nothing is recorded. */
  lemma PartnerMayDiffer(start: Info)
    requires Initial(start) && start.enable
    ensures Monotone(ChangingPartner)
    ensures After(start, ChangingPartner, 5).matcher.cfg.ability.fullDuplex
    ensures var i := After(start, ChangingPartner, |ChangingPartner|);
      i.state.LinkOk? && !i.regs.partner.fullDuplex
  {
    ClockRuns();
    MatchedFullDuplex(start);
    LinkIsBare(start);
    hide After, Monotone, Initial;
  }
}
