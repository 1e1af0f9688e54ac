/** The auto-negotiation variables and the routine polled by the driver. */
module AutonegPoll {
  import opened Autoneg

  /** The driver gives up after so many microseconds, or polls. */
  const TimeLimit: nat := 75000

  class Negotiator {
    var state: State
    var currentTime: nat
    var linkTime: nat
    var matcher: Matcher
    var rxConfig: Word
    var txConfig: Word
    /** Whether the hardware sends `txConfig` or idles. */
    var sending: bool
    var enable: bool
    var restart: bool
    var adv: Ability
    var regs: Registers

    function View(): Info
      reads this
    {
      Info(state, currentTime, linkTime, matcher, rxConfig, txConfig, sending,
           enable, restart, adv, regs)
    }

    constructor ()
      ensures Initial(View())
      ensures enable && !restart && adv == Ability(true, false, true, true, false, false, false)
    {
      state, currentTime, linkTime := Unknown, 0, 0;
      matcher := NoMatch;
      rxConfig, txConfig, sending, restart := Zero, Zero, false, false;
      enable := true;
      adv := Ability(true, false, true, true, false, false, false);
      regs := Registers(Zero.ability, false, false, false, false, false);
    }

    /** What is heard since the last poll. */
    method Listen(p: Poll)
      modifies this`matcher, this`rxConfig
      ensures View() == old(View()).(matcher := Match(old(View()).matcher, p), rx := WordOf(p))
    {
      if p.receiving {
        if p.config != matcher.cfg {
          matcher := matcher.(cfg := p.config, ability := false, cnt := 0);
        } else {
          matcher := matcher.(cnt := (matcher.cnt + 1) % TimeWrap);
          if matcher.cnt > 1 {
            matcher := matcher.(ability := true, cfg := p.config);
          }
        }
        matcher := matcher.(ack := p.config.ack, idle := false);
        rxConfig := p.config;
      } else {
        matcher := matcher.(idle := true, cfg := Zero, cnt := 0, ability := false, ack := false);
        rxConfig := Zero;
      }
    }

    method EnterEnable()
      modifies this`regs, this`linkTime, this`matcher, this`state
      ensures View() == Enabled(old(View()))
    {
      regs := regs.(complete := false, pageRx := false);
      if enable {
        linkTime := 0;
        matcher := NoMatch;
        state := RestartInit;
      } else {
        state := DisableLinkOk;
      }
    }

    method WaitForRestart() returns (status: Status)
      modifies this`state
      ensures (View(), status) == Restarting(old(View()))
    {
      status := Ok;
      if Elapsed(currentTime, linkTime) > LinkTimer {
        state := AbilityDetectInit;
      } else {
        status := TimerEnabled;
      }
    }

    method WaitForAck()
      modifies this`state
      ensures View() == AckDetecting(old(View()))
    {
      if matcher.ack {
        if rxConfig.(ack := false) == matcher.cfg.(ack := false) {
          state := CompleteAckInit;
        } else {
          state := AnEnable;
        }
      } else if matcher.ability && rxConfig == Zero {
        state := AnEnable;
      }
    }

    method CompleteAcknowledge() returns (status: Status)
      modifies this`state
      ensures (View(), status) == CompletingAck(old(View()))
    {
      status := Ok;
      if matcher.ability && rxConfig == Zero {
        state := AnEnable;
        return;
      }
      var delta := Elapsed(currentTime, linkTime);
      if delta > LinkTimer {
        if !adv.nextPage || !regs.partner.nextPage {
          state := IdleDetectInit;
        } else if !txConfig.ability.nextPage && !regs.npRx {
          state := IdleDetectInit;
        } else {
          status := Failed;
        }
      }
    }

    method Transition() returns (status: Status)
      modifies this
      ensures (View(), status) == Advance(old(View()))
    {
      hide Elapsed, IsClean, Advertise, Restarting, AckDetecting, CompletingAck;
      status := Ok;
      match state {
        case Unknown =>
          if enable || restart {
            currentTime := 0;
            state := AnEnable;
          }
          EnterEnable();
        case AnEnable =>
          EnterEnable();
        case RestartInit =>
          linkTime := currentTime;
          txConfig, sending := Zero, true;
          state := Restart;
          status := WaitForRestart();
          status := TimerEnabled;
        case Restart =>
          status := WaitForRestart();
        case DisableLinkOk =>
          status := Done;
        case AbilityDetectInit =>
          regs := regs.(toggleTx := false);
          txConfig, sending := Advertise(adv), true;
          state := AbilityDetect;
        case AbilityDetect =>
          if matcher.ability && rxConfig != Zero {
            state := AckDetectInit;
          }
        case AckDetectInit =>
          txConfig, sending := txConfig.(ack := true), true;
          state := AckDetect;
          WaitForAck();
        case AckDetect =>
          WaitForAck();
        case CompleteAckInit =>
          if !IsClean(rxConfig) {
            status := Failed;
          } else {
            regs := regs.(partner := rxConfig.ability, toggleTx := !regs.toggleTx,
                          npRx := rxConfig.ability.nextPage, pageRx := true);
            linkTime := currentTime;
            state := CompleteAck;
            status := TimerEnabled;
          }
        case CompleteAck =>
          status := CompleteAcknowledge();
        case IdleDetectInit =>
          linkTime := currentTime;
          sending := false;
          state := IdleDetect;
          status := TimerEnabled;
        case IdleDetect =>
          if matcher.ability && rxConfig == Zero {
            state := AnEnable;
          } else if Elapsed(currentTime, linkTime) > LinkTimer {
            state := LinkOk;
          }
        case LinkOk =>
          regs := regs.(complete := true, linkOk := true);
          status := Done;
      }
    }

    /** One poll, with the clock read beforehand. */
    method Autoneg8023z(p: Poll) returns (status: Status)
      modifies this
      ensures (View(), status) == Step(old(View()), p)
    {
      hide Match, Advance, WordOf;
      currentTime := p.now;
      if state.Unknown? {
        rxConfig := Zero;
        currentTime, linkTime := 0, 0;
        matcher := NoMatch;
      }
      Listen(p);
      status := Transition();
    }

    /** A whole negotiation: poll until done, failed, out of time or out of polls. */
    method Negotiate(polls: seq<Poll>) returns (used: nat, status: Status)
      requires Initial(View())
      modifies this
      ensures used <= |polls| && View() == After(old(View()), polls, used)
      ensures used <= TimeLimit && forall k :: 0 < k < used ==> polls[k].now < TimeLimit
      ensures status == Done || status == Failed || used == |polls| || used == TimeLimit || polls[used].now >= TimeLimit
      ensures Monotone(polls) && View().regs.complete ==>
        exists ev :: Negotiated(old(View()), polls, used, ev)
    {
      hide Step, Monotone, Negotiated;
      used, status := 0, Ok;
      while used < |polls| && used < TimeLimit && (used == 0 || polls[used].now < TimeLimit)
            && status != Done && status != Failed
        invariant used <= |polls| && used <= TimeLimit && View() == After(old(View()), polls, used)
        invariant forall k :: 0 < k < used ==> polls[k].now < TimeLimit
      {
        status := Autoneg8023z(polls[used]);
        used := used + 1;
      }
      if View().regs.complete {
        ghost var start := old(View());
        if Monotone(polls) {
          ghost var ev := LinkWasNegotiated(start, polls, used);
        }
      }
    }
  }
}
