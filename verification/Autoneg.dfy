/** Auto-negotiation for 1000BASE-X links, after section 37.3.1.5 of
    IEEE 802.3z, as a machine that is polled. */
module Autoneg {
  const LinkTimer: nat := 12000
  const TimeWrap: nat := 0x1_0000_0000

  datatype State =
    | Unknown | AnEnable | RestartInit | Restart | DisableLinkOk
    | AbilityDetectInit | AbilityDetect | AckDetectInit | AckDetect
    | CompleteAckInit | CompleteAck | IdleDetectInit | IdleDetect | LinkOk

  datatype Status = Ok | Done | TimerEnabled | Failed

  /** What one side advertises. */
  datatype Ability = Ability(
    fullDuplex: bool, halfDuplex: bool, symPause: bool, asymPause: bool,
    remoteFault1: bool, remoteFault2: bool, nextPage: bool)

  /** A config word by its bits: the abilities, the acknowledge bit D14, and
      the reserved bits. */
  datatype Word = Word(
    ability: Ability, ack: bool,
    d0: bool, d1: bool, d2: bool, d3: bool, d4: bool, d9: bool, d10: bool, d11: bool)

  predicate IsClean(w: Word) {
    !w.d0 && !w.d1 && !w.d2 && !w.d3 && !w.d4 && !w.d9 && !w.d10 && !w.d11
  }

  /** The word that advertises an ability. */
  function Advertise(a: Ability): Word {
    Word(a, false, false, false, false, false, false, false, false, false)
  }

  const Zero: Word := Advertise(Ability(false, false, false, false, false, false, false))

  function Unpack(w: bv16): Word {
    Word(Ability(w & 0x2000 != 0, w & 0x4000 != 0, w & 0x8000 != 0, w & 0x0001 != 0,
                 w & 0x0010 != 0, w & 0x0020 != 0, w & 0x0080 != 0),
         w & 0x0040 != 0,
         w & 0x0100 != 0, w & 0x0200 != 0, w & 0x0400 != 0, w & 0x0800 != 0, w & 0x1000 != 0,
         w & 0x0002 != 0, w & 0x0004 != 0, w & 0x0008 != 0)
  }

  /** The view by bits loses nothing of the number... */
  lemma UnpackInjective(n: bv16, m: bv16)
    requires Unpack(n) == Unpack(m)
    ensures n == m
  {
  }

  /** ...and the masks of the number mean the named bits. */
  lemma MasksMeanBits(n: bv16)
    ensures n == 0 <==> Unpack(n) == Zero
    ensures n & 0x1F0E == 0 <==> IsClean(Unpack(n))
    ensures Unpack(n & !0x0040) == Unpack(n).(ack := false)
  {
  }

  /** The ability, idle and acknowledge match functions. */
  datatype Matcher = Matcher(cfg: Word, cnt: nat, ability: bool, idle: bool, ack: bool)

  const NoMatch: Matcher := Matcher(Zero, 0, false, false, false)

  /** The management registers that the machine sets. */
  datatype Registers = Registers(
    partner: Ability, complete: bool, linkOk: bool, pageRx: bool, npRx: bool, toggleTx: bool)

  /** The machine's variables; `tx` and `sending` are what goes out. */
  datatype Info = Info(
    state: State, now: nat, linkTime: nat, matcher: Matcher, rx: Word, tx: Word, sending: bool,
    enable: bool, restart: bool, adv: Ability, regs: Registers)

  /** One call: the time, and the config word if one is being received. */
  datatype Poll = Poll(now: nat, receiving: bool, config: Word)

  /** Unsigned subtraction of times. */
  function Elapsed(now: nat, since: nat): nat {
    (now - since) % TimeWrap
  }

  function WordOf(p: Poll): Word {
    if p.receiving then p.config else Zero
  }

  function Match(m: Matcher, p: Poll): Matcher {
    if !p.receiving then Matcher(Zero, 0, false, true, false)
    else if p.config != m.cfg then Matcher(p.config, 0, false, false, p.config.ack)
    else
      var n := (m.cnt + 1) % TimeWrap;
      Matcher(m.cfg, n, m.ability || n > 1, false, p.config.ack)
  }

  function Enabled(i: Info): (r: Info)
    ensures !r.regs.complete
  {
    var j := i.(regs := i.regs.(complete := false, pageRx := false));
    if i.enable then j.(linkTime := 0, matcher := NoMatch, state := RestartInit)
    else j.(state := DisableLinkOk)
  }

  function Restarting(i: Info): (r: (Info, Status))
    ensures r.0.regs == i.regs && r.0.matcher == i.matcher
  {
    if Elapsed(i.now, i.linkTime) > LinkTimer then (i.(state := AbilityDetectInit), Ok)
    else (i, TimerEnabled)
  }

  function AckDetecting(i: Info): (r: Info)
    ensures r.regs == i.regs && r.matcher == i.matcher
  {
    if i.matcher.ack then
      if i.rx.(ack := false) == i.matcher.cfg.(ack := false) then i.(state := CompleteAckInit)
      else i.(state := AnEnable)
    else if i.matcher.ability && i.rx == Zero then i.(state := AnEnable)
    else i
  }

  function CompletingAck(i: Info): (r: (Info, Status))
    ensures r.0.regs == i.regs && r.0.matcher == i.matcher
  {
    if i.matcher.ability && i.rx == Zero then (i.(state := AnEnable), Ok)
    else if Elapsed(i.now, i.linkTime) <= LinkTimer then (i, Ok)
    else if !i.adv.nextPage || !i.regs.partner.nextPage || (!i.tx.ability.nextPage && !i.regs.npRx) then
      (i.(state := IdleDetectInit), Ok)
    else (i, Failed)
  }

  /** The state diagram. */
  function Advance(i: Info): (Info, Status) {
    match i.state
    case Unknown => (Enabled(if i.enable || i.restart then i.(now := 0) else i), Ok)
    case AnEnable => (Enabled(i), Ok)
    case RestartInit =>
      var r := Restarting(i.(linkTime := i.now, tx := Zero, sending := true, state := Restart));
      (r.0, TimerEnabled)
    case Restart => Restarting(i)
    case DisableLinkOk => (i, Done)
    case AbilityDetectInit =>
      (i.(regs := i.regs.(toggleTx := false), tx := Advertise(i.adv), sending := true, state := AbilityDetect), Ok)
    case AbilityDetect => (if i.matcher.ability && i.rx != Zero then i.(state := AckDetectInit) else i, Ok)
    case AckDetectInit => (AckDetecting(i.(tx := i.tx.(ack := true), sending := true, state := AckDetect)), Ok)
    case AckDetect => (AckDetecting(i), Ok)
    case CompleteAckInit =>
      if !IsClean(i.rx) then (i, Failed)
      else
        var regs := i.regs.(partner := i.rx.ability, toggleTx := !i.regs.toggleTx,
                            npRx := i.rx.ability.nextPage, pageRx := true);
        (i.(regs := regs, linkTime := i.now, state := CompleteAck), TimerEnabled)
    case CompleteAck => CompletingAck(i)
    case IdleDetectInit => (i.(linkTime := i.now, sending := false, state := IdleDetect), TimerEnabled)
    case IdleDetect =>
      if i.matcher.ability && i.rx == Zero then (i.(state := AnEnable), Ok)
      else if Elapsed(i.now, i.linkTime) > LinkTimer then (i.(state := LinkOk), Ok)
      else (i, Ok)
    case LinkOk => (i.(regs := i.regs.(complete := true, linkOk := true)), Done)
  }

  function Step(i: Info, p: Poll): (Info, Status) {
    var begin := i.state.Unknown?;
    Advance(i.(now := if begin then 0 else p.now, linkTime := if begin then 0 else i.linkTime,
               matcher := Match(if begin then NoMatch else i.matcher, p), rx := WordOf(p)))
  }

  /** The machine after the first `k` polls. */
  function After(start: Info, polls: seq<Poll>, k: nat): Info
    requires k <= |polls|
  {
    if k == 0 then start else Step(After(start, polls, k - 1), polls[k - 1]).0
  }

  predicate Initial(i: Info) {
    i.state.Unknown? && !i.regs.complete && !i.regs.linkOk
  }

  /** The clock never goes back and does not wrap. */
  predicate Monotone(polls: seq<Poll>) {
    && (forall k :: 0 <= k < |polls| ==> polls[k].now < TimeWrap)
    && (forall j, k :: 0 <= j <= k < |polls| ==> polls[j].now <= polls[k].now)
  }

  predicate Waited(polls: seq<Poll>, from: nat, to: nat) {
    from <= to < |polls| && polls[to].now - polls[from].now > LinkTimer
  }

  /** The polls at which a negotiation passed its stations. */
  datatype Evidence = Evidence(
    enabled: nat, restart0: nat, restart1: nat, ability: nat, ack: nat,
    complete0: nat, complete1: nat, idle0: nat, idle1: nat)

  /** How far a state is along the way to a link. */
  function Rank(s: State): nat {
    match s
    case Unknown => 0 case AnEnable => 0 case DisableLinkOk => 0 case RestartInit => 1
    case Restart => 2 case AbilityDetectInit => 3 case AbilityDetect => 4
    case AckDetectInit => 5 case AckDetect => 5 case CompleteAckInit => 6
    case CompleteAck => 7 case IdleDetectInit => 8 case IdleDetect => 9 case LinkOk => 10
  }

  predicate SameWord(polls: seq<Poll>, from: int, k: nat, w: Word)
    requires k <= |polls|
  {
    forall j :: 0 <= j && from <= j < k ==> polls[j].receiving && polls[j].config == w
  }

  /** The match counter counts equal words received since the last enable. */
  predicate MatchOk(polls: seq<Poll>, k: nat, enabled: nat, m: Matcher)
    requires k <= |polls|
  {
    && (m.cfg != Zero ==> m.cnt + 1 < k - enabled && SameWord(polls, k - 1 - m.cnt, k, m.cfg))
    && (m.cfg != Zero && m.ability ==> k >= enabled + 4 && SameWord(polls, k - 3, k, m.cfg))
    && (k > 0 && m.ability ==> m.cfg == WordOf(polls[k - 1]))
  }

  lemma CountUp(n: nat)
    ensures (n + 1) % TimeWrap <= n + 1
  {
  }

  lemma MatchKeeps(polls: seq<Poll>, k: nat, enabled: nat, m: Matcher)
    requires enabled < k < |polls| && MatchOk(polls, k, enabled, m)
    ensures MatchOk(polls, k + 1, enabled, Match(m, polls[k]))
  {
    CountUp(m.cnt);
  }

  /** What the stations passed so far amount to, given the current state. */
  predicate Stations(polls: seq<Poll>, k: nat, i: Info, ev: Evidence)
    requires k <= |polls|
  {
    var r := Rank(i.state);
    && (r >= 1 ==> ev.enabled < k)
    && (r >= 2 ==> ev.enabled < ev.restart0 < k)
    && (r == 2 ==> i.linkTime == polls[ev.restart0].now)
    && (r >= 3 ==> ev.restart1 < k && Waited(polls, ev.restart0, ev.restart1))
    && (r >= 4 ==> ev.restart1 + 1 < k)
    && (r >= 5 ==> AbilitySeen(polls, ev.enabled, ev.restart1, ev.ability) && ev.ability < k)
    && (r >= 6 ==> AckSeen(polls, ev.ability, ev.ack) && ev.ack < k)
    && (r >= 7 ==> PartnerSeen(polls, ev.ack, ev.complete0, i.regs.partner) && ev.complete0 < k)
    && (r == 7 ==> i.linkTime == polls[ev.complete0].now)
    && (r >= 8 ==> ev.complete1 < k && Waited(polls, ev.complete0, ev.complete1))
    && (r >= 9 ==> ev.complete1 < ev.idle0 < k)
    && (r == 9 ==> i.linkTime == polls[ev.idle0].now)
    && (r >= 10 ==> ev.idle1 < k && Waited(polls, ev.idle0, ev.idle1))
  }

  /** After the first wait three polls in a row brought the same word. */
  predicate AbilitySeen(polls: seq<Poll>, enabled: nat, waited: nat, k: nat) {
    && enabled + 3 <= k < |polls| && waited + 1 < k
    && WordOf(polls[k]) != Zero && SameWord(polls, k - 2, k + 1, WordOf(polls[k]))
  }

  predicate AckSeen(polls: seq<Poll>, ability: nat, k: nat) {
    ability < k < |polls| && polls[k].receiving && polls[k].config.ack
  }

  predicate PartnerSeen(polls: seq<Poll>, ack: nat, k: nat, partner: Ability) {
    ack < k < |polls| && IsClean(WordOf(polls[k])) && partner == WordOf(polls[k]).ability
  }

  predicate Starting(s: State) {
    s.Unknown? || s.AnEnable?
  }

  /** The last enable is the one the evidence names. */
  predicate SinceEnable(start: Info, polls: seq<Poll>, k: nat, ev: Evidence)
    requires k <= |polls|
  {
    && ev.enabled < k && Starting(After(start, polls, ev.enabled).state)
    && forall j :: ev.enabled < j < k ==> !Starting(After(start, polls, j).state)
  }

  function Track(ev: Evidence, k: nat, was: State, now: State): Evidence {
    if Starting(was) then ev.(enabled := k)
    else if was == now && was != RestartInit then ev
    else
      match was
      case RestartInit => ev.(restart0 := k)
      case Restart => ev.(restart1 := k)
      case AbilityDetect => ev.(ability := k)
      case AckDetectInit => ev.(ack := k)
      case AckDetect => ev.(ack := k)
      case CompleteAckInit => ev.(complete0 := k)
      case CompleteAck => ev.(complete1 := k)
      case IdleDetectInit => ev.(idle0 := k)
      case IdleDetect => ev.(idle1 := k)
      case _ => ev
  }

  ghost predicate Established(start: Info, polls: seq<Poll>, k: nat, ev: Evidence)
    requires k <= |polls|
  {
    var i := After(start, polls, k);
    && (Rank(i.state) >= 1 ==>
          Stations(polls, k, i, ev) && MatchOk(polls, k, ev.enabled, i.matcher) && SinceEnable(start, polls, k, ev))
    && (i.regs.complete ==> i.state.LinkOk?)
  }

  lemma TimerRanOut(polls: seq<Poll>, from: nat, k: nat, since: nat)
    requires from < k < |polls| && Monotone(polls) && since == polls[from].now
    ensures Elapsed(polls[k].now, since) > LinkTimer ==> Waited(polls, from, k)
  {
  }

  predicate StationsNext(polls: seq<Poll>, k: nat, i: Info, ev: Evidence)
    requires k < |polls|
  {
    var j := Step(i, polls[k]).0;
    Rank(j.state) >= 1 ==> Stations(polls, k + 1, j, Track(ev, k, i.state, j.state))
  }

  lemma AckStep(i: Info, p: Poll)
    requires i.state in {AckDetectInit, AckDetect}
    ensures var j := Step(i, p).0;
      j.state in {AnEnable, AckDetect} || (j.state == CompleteAckInit && p.receiving && p.config.ack)
  {
  }

  lemma CompleteStep(i: Info, p: Poll)
    requires i.state == CompleteAck
    ensures var j := Step(i, p).0;
      && j.regs == i.regs && j.linkTime == i.linkTime
      && (j.state in {AnEnable, CompleteAck} || (j.state == IdleDetectInit && Elapsed(p.now, i.linkTime) > LinkTimer))
  {
    hide Match, Elapsed;
  }

  lemma IdleStep(i: Info, p: Poll)
    requires i.state == IdleDetect
    ensures var j := Step(i, p).0;
      && j.regs == i.regs && j.linkTime == i.linkTime
      && (j.state in {AnEnable, IdleDetect} || (j.state == LinkOk && Elapsed(p.now, i.linkTime) > LinkTimer))
  {
    hide Match, Elapsed;
  }

  lemma RestartNext(polls: seq<Poll>, k: nat, i: Info, ev: Evidence)
    requires k < |polls| && Monotone(polls) && i.state in {RestartInit, Restart, AbilityDetectInit}
    requires Stations(polls, k, i, ev) && MatchOk(polls, k, ev.enabled, i.matcher)
    ensures StationsNext(polls, k, i, ev)
  {
    hide Match;
  }

  lemma AbilityNext(polls: seq<Poll>, k: nat, i: Info, ev: Evidence)
    requires k < |polls| && Monotone(polls) && i.state == AbilityDetect
    requires Stations(polls, k, i, ev) && MatchOk(polls, k, ev.enabled, i.matcher)
    ensures StationsNext(polls, k, i, ev)
  {
    MatchKeeps(polls, k, ev.enabled, i.matcher);
    hide Match;
  }

  lemma AckNext(polls: seq<Poll>, k: nat, i: Info, ev: Evidence)
    requires k < |polls| && Monotone(polls) && i.state in {AckDetectInit, AckDetect}
    requires Stations(polls, k, i, ev) && MatchOk(polls, k, ev.enabled, i.matcher)
    ensures StationsNext(polls, k, i, ev)
  {
    AckStep(i, polls[k]);
    hide Step, AbilitySeen, Waited, Monotone, MatchOk;
  }

  lemma PartnerNext(polls: seq<Poll>, k: nat, i: Info, ev: Evidence)
    requires k < |polls| && Monotone(polls) && i.state == CompleteAckInit
    requires Stations(polls, k, i, ev) && MatchOk(polls, k, ev.enabled, i.matcher)
    ensures StationsNext(polls, k, i, ev)
  {
    hide Match, AbilitySeen, AckSeen, Waited, Monotone;
  }

  lemma CompleteNext(polls: seq<Poll>, k: nat, i: Info, ev: Evidence)
    requires k < |polls| && Monotone(polls) && i.state == CompleteAck
    requires Stations(polls, k, i, ev) && MatchOk(polls, k, ev.enabled, i.matcher)
    ensures StationsNext(polls, k, i, ev)
  {
    CompleteStep(i, polls[k]);
    TimerRanOut(polls, ev.complete0, k, i.linkTime);
    hide Step, AbilitySeen, AckSeen, PartnerSeen, Waited, Elapsed, Monotone, MatchOk;
  }

  lemma IdleInitNext(polls: seq<Poll>, k: nat, i: Info, ev: Evidence)
    requires k < |polls| && Monotone(polls) && i.state in {IdleDetectInit, LinkOk}
    requires Stations(polls, k, i, ev) && MatchOk(polls, k, ev.enabled, i.matcher)
    ensures StationsNext(polls, k, i, ev)
  {
    hide Match, AbilitySeen, AckSeen, PartnerSeen, Waited, Monotone;
  }

  lemma IdleNext(polls: seq<Poll>, k: nat, i: Info, ev: Evidence)
    requires k < |polls| && Monotone(polls) && i.state == IdleDetect
    requires Stations(polls, k, i, ev) && MatchOk(polls, k, ev.enabled, i.matcher)
    ensures StationsNext(polls, k, i, ev)
  {
    IdleStep(i, polls[k]);
    TimerRanOut(polls, ev.idle0, k, i.linkTime);
    hide Step, AbilitySeen, AckSeen, PartnerSeen, Waited, Elapsed, Monotone, MatchOk;
  }

  lemma StationsKept(polls: seq<Poll>, k: nat, i: Info, ev: Evidence)
    requires k < |polls| && Monotone(polls) && Rank(i.state) >= 1
    requires Stations(polls, k, i, ev) && MatchOk(polls, k, ev.enabled, i.matcher)
    ensures StationsNext(polls, k, i, ev)
  {
    hide Stations, MatchOk, StationsNext;
    match i.state {
      case AbilityDetect => AbilityNext(polls, k, i, ev);
      case AckDetectInit => AckNext(polls, k, i, ev);
      case AckDetect => AckNext(polls, k, i, ev);
      case CompleteAckInit => PartnerNext(polls, k, i, ev);
      case CompleteAck => CompleteNext(polls, k, i, ev);
      case IdleDetectInit => IdleInitNext(polls, k, i, ev);
      case IdleDetect => IdleNext(polls, k, i, ev);
      case LinkOk => IdleInitNext(polls, k, i, ev);
      case _ => RestartNext(polls, k, i, ev);
    }
  }

  lemma EnableStarts(start: Info, polls: seq<Poll>, k: nat, ev: Evidence)
    requires k < |polls| && Starting(After(start, polls, k).state)
    requires Established(start, polls, k, ev)
    ensures Established(start, polls, k + 1, ev.(enabled := k))
  {
  }

  lemma SinceEnableKept(start: Info, polls: seq<Poll>, k: nat, ev: Evidence, next: Evidence)
    requires k < |polls| && SinceEnable(start, polls, k, ev) && !Starting(After(start, polls, k).state)
    requires next.enabled == ev.enabled
    ensures SinceEnable(start, polls, k + 1, next)
  {
    hide After;
  }

  lemma TrackKeepsEnable(ev: Evidence, k: nat, was: State, now: State)
    requires !Starting(was)
    ensures Track(ev, k, was, now).enabled == ev.enabled
  {
  }

  lemma AdvanceKeepsMatch(i: Info)
    requires Rank(i.state) >= 1
    ensures Advance(i).0.matcher == i.matcher
  {
    hide Elapsed, IsClean, Advertise, Enabled, AckDetecting, CompletingAck, Restarting;
  }

  /** Completion is reported in the last state only, and that state is not left. */
  lemma AdvanceCompletes(i: Info)
    requires i.regs.complete ==> i.state.LinkOk?
    ensures Advance(i).0.regs.complete ==> Advance(i).0.state.LinkOk?
  {
    if !i.state.LinkOk? {
      OthersNotComplete(i);
      hide Advance;
    }
  }

  lemma OthersNotComplete(i: Info)
    requires !i.regs.complete && !i.state.LinkOk?
    ensures !Advance(i).0.regs.complete
  {
    hide IsClean, Advertise, Enabled, AckDetecting, CompletingAck, Restarting;
  }

  lemma EstablishedKept(start: Info, polls: seq<Poll>, k: nat, ev: Evidence)
    requires k < |polls| && Monotone(polls) && Rank(After(start, polls, k).state) >= 1
    requires Established(start, polls, k, ev)
    ensures var was, now := After(start, polls, k).state, After(start, polls, k + 1).state;
      Established(start, polls, k + 1, Track(ev, k, was, now))
  {
    var i, j := After(start, polls, k), After(start, polls, k + 1);
    var seen := i.(now := polls[k].now, matcher := Match(i.matcher, polls[k]), rx := WordOf(polls[k]));
    assert j == Advance(seen).0;
    AdvanceKeepsMatch(seen);
    AdvanceCompletes(seen);
    StationsKept(polls, k, i, ev);
    TrackKeepsEnable(ev, k, i.state, j.state);
    SinceEnableKept(start, polls, k, ev, Track(ev, k, i.state, j.state));
    MatchKeeps(polls, k, ev.enabled, i.matcher);
    hide Stations, MatchOk, SinceEnable, Advance, Track, Match, After, Monotone;
  }

  /** The evidence can be collected poll by poll. */
  lemma {:induction false} Gather(start: Info, polls: seq<Poll>, k: nat) returns (ev: Evidence)
    requires Initial(start) && Monotone(polls) && k <= |polls|
    ensures Established(start, polls, k, ev)
    decreases k
  {
    hide Established, Track, After, Monotone, Initial;
    if k == 0 {
      ev := Evidence(0, 0, 0, 0, 0, 0, 0, 0, 0);
      NothingYet(start, polls, ev);
      return;
    }
    var before := Gather(start, polls, k - 1);
    var i, j := After(start, polls, k - 1), After(start, polls, k);
    if Starting(i.state) {
      ev := before.(enabled := k - 1);
      EnableStarts(start, polls, k - 1, before);
    } else if Rank(i.state) >= 1 {
      ev := Track(before, k - 1, i.state, j.state);
      EstablishedKept(start, polls, k - 1, before);
    } else {
      ev := before;
      DisabledStays(start, polls, k - 1, before);
    }
  }

  lemma NothingYet(start: Info, polls: seq<Poll>, ev: Evidence)
    requires Initial(start)
    ensures Established(start, polls, 0, ev)
  {
  }

  lemma DisabledStays(start: Info, polls: seq<Poll>, k: nat, ev: Evidence)
    requires k < |polls| && After(start, polls, k).state.DisableLinkOk?
    requires Established(start, polls, k, ev)
    ensures Established(start, polls, k + 1, ev)
  {
  }

  /** A link took, since the last enable: three waits of more than the link
      timer, one after the other; between the first and the second, three polls
      in a row with the same word, then one with the acknowledge bit, then one
      with clear reserved bits, from which the partner's abilities come. */
  ghost predicate Negotiated(start: Info, polls: seq<Poll>, k: nat, ev: Evidence)
    requires k <= |polls|
  {
    && SinceEnable(start, polls, k, ev)
    && ev.enabled < ev.restart0 && Waited(polls, ev.restart0, ev.restart1)
    && AbilitySeen(polls, ev.enabled, ev.restart1, ev.ability)
    && AckSeen(polls, ev.ability, ev.ack)
    && PartnerSeen(polls, ev.ack, ev.complete0, After(start, polls, k).regs.partner)
    && Waited(polls, ev.complete0, ev.complete1)
    && ev.complete1 < ev.idle0 && Waited(polls, ev.idle0, ev.idle1) && ev.idle1 < k
  }

  /** No run reaches a link, or reports completion, without all of that. */
  lemma LinkWasNegotiated(start: Info, polls: seq<Poll>, k: nat) returns (ev: Evidence)
    requires Initial(start) && Monotone(polls) && k <= |polls|
    requires After(start, polls, k).state.LinkOk? || After(start, polls, k).regs.complete
    ensures Negotiated(start, polls, k, ev)
  {
    hide AbilitySeen, AckSeen, PartnerSeen, Waited, SinceEnable, MatchOk, After, Monotone;
    ev := Gather(start, polls, k);
  }

  /** So it took more than three link timers of time. */
  lemma LinkTakesTime(start: Info, polls: seq<Poll>, k: nat)
    requires Initial(start) && Monotone(polls) && k <= |polls|
    requires After(start, polls, k).state.LinkOk?
    ensures k > 0 && polls[k - 1].now - polls[0].now > 3 * LinkTimer
  {
    var ev := LinkWasNegotiated(start, polls, k);
    hide After;
  }

  /** The check that the acknowledged word agrees with the one matched before
      never fails: the matcher has already taken over the new word. */
  lemma AckCheckIsVacuous(i: Info, p: Poll)
    requires i.state.AckDetectInit? || i.state.AckDetect?
    ensures Step(i, p).0.state.CompleteAckInit? <==> p.receiving && p.config.ack
  {
  }

  /** In every run that reaches a link, the partner is recorded as it was matched if
      and only if the clean word that completes the negotiation advertises the same. */
  lemma PartnerAsMatchedIff(start: Info, polls: seq<Poll>, k: nat) returns (ev: Evidence)
    requires Initial(start) && Monotone(polls) && k <= |polls|
    requires After(start, polls, k).state.LinkOk? || After(start, polls, k).regs.complete
    ensures Negotiated(start, polls, k, ev)
    ensures After(start, polls, k).regs.partner == WordOf(polls[ev.ability]).ability
       <==> WordOf(polls[ev.complete0]).ability == WordOf(polls[ev.ability]).ability
  {
    ev := LinkWasNegotiated(start, polls, k);
    hide After, SinceEnable, Waited, Monotone;
  }
}
