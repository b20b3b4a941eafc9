/** Telnet option negotiation (cli_telnet.c; RFC 854, state names as in section 7 of RFC 1143).

    One end negotiates an option of its own (WILL, WONT), the other end the same option of its peer
    (DO, DONT); both run the same transitions.  The two ends are connected by channels that keep the
    order of messages. */
module Telnet {

  datatype OptState = Disable | Enable | ExpectDisable | ExpectEnable | ExpectDisableRev | ExpectEnableRev

  // On is WILL or DO, Off is WONT or DONT.
  datatype Msg = On | Off

  datatype Reaction = Reaction(state: OptState, out: seq<Msg>)

  function SendEnable(s: OptState): Reaction {
    match s
    case Enable => Reaction(Enable, [])
    case Disable => Reaction(ExpectEnable, [On])
    case ExpectEnable => Reaction(Disable, [])
    case ExpectDisable => Reaction(ExpectDisableRev, [])
    case ExpectEnableRev => Reaction(ExpectEnable, [])
    case ExpectDisableRev => Reaction(Disable, [])
  }

  function ReceiveEnable(s: OptState, enabled: bool): Reaction {
    match s
    case Enable => Reaction(Enable, [])
    case Disable => if enabled then Reaction(Enable, [On]) else Reaction(Disable, [Off])
    case ExpectEnable => Reaction(Enable, [])
    case ExpectDisable => Reaction(Disable, [])
    case ExpectEnableRev => Reaction(ExpectDisable, [Off])
    case ExpectDisableRev => Reaction(ExpectDisable, [])
  }

  function ReceiveDisable(s: OptState): Reaction {
    match s
    case Enable => Reaction(Disable, [Off])
    case Disable => Reaction(Disable, [])
    case ExpectEnable => Reaction(Disable, [])
    case ExpectDisable => Reaction(Disable, [])
    case ExpectEnableRev => Reaction(Disable, [Off])
    case ExpectDisableRev => Reaction(ExpectEnable, [On])
  }

  function Receive(s: OptState, m: Msg, enabled: bool): Reaction {
    if m == On then ReceiveEnable(s, enabled) else ReceiveDisable(s)
  }

  // A request made while a disable is awaited is remembered: when the answer comes the option is asked for. A
  // second request takes it back, and so does an answer that enables, after which the disable is awaited again.
  lemma RequestIsRemembered(enabled: bool)
    ensures var asked := SendEnable(ExpectDisable);
      && asked.out == [] && ReceiveDisable(asked.state) == Reaction(ExpectEnable, [On])
      && SendEnable(asked.state) == Reaction(Disable, []) && ReceiveEnable(asked.state, enabled) == Reaction(ExpectDisable, [])
    ensures ReceiveEnable(ExpectDisable, enabled) == ReceiveDisable(ExpectDisable) == Reaction(Disable, [])
  {}

  // An enable that is to be undone: the answer that enables is followed by a disable, the one that refuses by a
  // refusal, and a request cancels the undoing.
  lemma UndoingIsRemembered(enabled: bool)
    ensures ReceiveEnable(ExpectEnableRev, enabled) == Reaction(ExpectDisable, [Off])
    ensures ReceiveDisable(ExpectEnableRev) == Reaction(Disable, [Off])
    ensures SendEnable(ExpectEnableRev) == Reaction(ExpectEnable, [])
  {}

  // ---------------------------------------------------------------- one option of a session

  datatype Command = Will | Wont | Do | Dont

  function CommandOf(isLocal: bool, m: Msg): Command {
    if isLocal then (if m == On then Will else Wont) else (if m == On then Do else Dont)
  }

  class SessOption {
    var localIsEnable: bool
    var peerIsEnable: bool
    var localState: OptState
    var peerState: OptState
    var sent: seq<Command>

    constructor ()
      ensures !localIsEnable && !peerIsEnable && localState == peerState == Disable && sent == []
    {
      localIsEnable, peerIsEnable, localState, peerState, sent := false, false, Disable, Disable, [];
    }

    function StateOf(isLocal: bool): OptState
      reads this
    {
      if isLocal then localState else peerState
    }

    // Only the chosen state changes, as r says, and r's messages are sent as commands of that side.
    twostate predicate Reacted(isLocal: bool, r: Reaction)
      reads this
    {
      && StateOf(isLocal) == r.state && StateOf(!isLocal) == old(StateOf(!isLocal))
      && sent == old(sent) + seq(|r.out|, i requires 0 <= i < |r.out| => CommandOf(isLocal, r.out[i]))
    }

    method SetState(isLocal: bool, s: OptState)
      modifies this`localState, this`peerState
      ensures StateOf(isLocal) == s && StateOf(!isLocal) == old(StateOf(!isLocal))
    {
      if isLocal {
        localState := s;
      } else {
        peerState := s;
      }
    }

    method SendCmd(isLocal: bool, m: Msg)
      modifies this`sent
      ensures sent == old(sent) + [CommandOf(isLocal, m)]
    {
      sent := sent + [CommandOf(isLocal, m)];
    }

    method SendEnableOption(isLocal: bool)
      modifies this`localState, this`peerState, this`sent
      ensures Reacted(isLocal, old(SendEnable(StateOf(isLocal))))
    {
      match StateOf(isLocal)
      case Enable =>
      case Disable =>
        SetState(isLocal, ExpectEnable);
        SendCmd(isLocal, On);
      case ExpectEnable => SetState(isLocal, Disable);
      case ExpectDisable => SetState(isLocal, ExpectDisableRev);
      case ExpectEnableRev => SetState(isLocal, ExpectEnable);
      case ExpectDisableRev => SetState(isLocal, Disable);
    }

    method ReceiveEnableOption(isLocal: bool)
      modifies this`localState, this`peerState, this`sent
      ensures Reacted(isLocal, old(ReceiveEnable(StateOf(isLocal), if isLocal then localIsEnable else peerIsEnable)))
    {
      var enabled := if isLocal then localIsEnable else peerIsEnable;
      match StateOf(isLocal)
      case Enable =>
      case Disable =>
        if enabled {
          SetState(isLocal, Enable);
          SendCmd(isLocal, On);
        } else {
          SendCmd(isLocal, Off);
        }
      case ExpectEnable => SetState(isLocal, Enable);
      case ExpectDisable => SetState(isLocal, Disable);
      case ExpectEnableRev =>
        SetState(isLocal, ExpectDisable);
        SendCmd(isLocal, Off);
      case ExpectDisableRev => SetState(isLocal, ExpectDisable);
    }

    method ReceiveDisableOption(isLocal: bool)
      modifies this`localState, this`peerState, this`sent
      ensures Reacted(isLocal, old(ReceiveDisable(StateOf(isLocal))))
    {
      match StateOf(isLocal)
      case Enable =>
        SetState(isLocal, Disable);
        SendCmd(isLocal, Off);
      case Disable =>
      case ExpectEnable => SetState(isLocal, Disable);
      case ExpectDisable => SetState(isLocal, Disable);
      case ExpectEnableRev =>
        SetState(isLocal, Disable);
        SendCmd(isLocal, Off);
      case ExpectDisableRev =>
        SetState(isLocal, ExpectEnable);
        SendCmd(isLocal, On);
    }
  }

  // ---------------------------------------------------------------- two ends

  // toPeer and toLocal are the messages under way to each end.
  datatype Pair = Pair(local: OptState, peer: OptState, toPeer: seq<Msg>, toLocal: seq<Msg>, requests: nat, sent: nat)

  const Start := Pair(Disable, Disable, [], [], 0, 0)

  // A request is the application asking an end to enable the option; enabled is the end's setting when
  // a message arrives.
  datatype Event = Request(atLocal: bool) | Arrive(atLocal: bool, enabled: bool)

  // The same pair seen from the other end.
  function Turn(p: Pair): Pair { Pair(p.peer, p.local, p.toLocal, p.toPeer, p.requests, p.sent) }

  predicate Possible(p: Pair, e: Event) {
    e.Arrive? ==> (if e.atLocal then p.toLocal else p.toPeer) != []
  }

  function LocalStep(p: Pair, e: Event): Pair
    requires e.Arrive? ==> p.toLocal != []
  {
    var r := if e.Request? then SendEnable(p.local) else Receive(p.local, p.toLocal[0], e.enabled);
    p.(local := r.state, toPeer := p.toPeer + r.out, toLocal := if e.Request? then p.toLocal else p.toLocal[1..],
    requests := p.requests + (if e.Request? then 1 else 0), sent := p.sent + |r.out|)
  }

  function Step(p: Pair, e: Event): Pair
    requires Possible(p, e)
  {
    if e.atLocal then LocalStep(p, e) else Turn(LocalStep(Turn(p), e))
  }

  ghost predicate StepAt(ps: seq<Pair>, es: seq<Event>, i: nat) {
    i < |es| && i + 1 < |ps| && Possible(ps[i], es[i]) && ps[i + 1] == Step(ps[i], es[i])
  }

  ghost predicate IsRun(ps: seq<Pair>, es: seq<Event>) {
    |ps| == |es| + 1 && ps[0] == Start && forall i: nat :: i < |es| ==> StepAt(ps, es, i)
  }

  // ---------------------------------------------------------------- agreement, in every run

  predicate Basic(s: OptState) { s == Disable || s == ExpectEnable || s == Enable }

  // An end that wants the option said On last; once that has arrived, the other end has enabled the
  // option or has an Off under way.
  ghost predicate Sound(p: Pair) {
    && Basic(p.local)
    && (p.local != Disable && p.toPeer != [] ==> p.toPeer[|p.toPeer| - 1] == On)
    && (p.local != Disable && p.toPeer == [] && p.peer != Enable ==> Off in p.toLocal)
  }

  ghost predicate Inv(p: Pair) { Sound(p) && Sound(Turn(p)) }

  lemma LocalStepInv(p: Pair, e: Event)
    requires Inv(p) && (e.Arrive? ==> p.toLocal != [])
    ensures Inv(LocalStep(p, e))
  {
    var p' := LocalStep(p, e);
    if e.Arrive? {
      assert p.toLocal == [p.toLocal[0]] + p'.toLocal;
      assert p'.toLocal != [] ==> p'.toLocal[|p'.toLocal| - 1] == p.toLocal[|p.toLocal| - 1];
    }
  }

  lemma StepInv(p: Pair, e: Event)
    requires Inv(p) && Possible(p, e)
    ensures Inv(Step(p, e))
  {
    hide Sound, LocalStep;
    if e.atLocal { LocalStepInv(p, e); } else { LocalStepInv(Turn(p), e); }
  }

  lemma {:induction false} RunInv(ps: seq<Pair>, es: seq<Event>, i: nat)
    requires IsRun(ps, es) && i <= |es|
    ensures Inv(ps[i])
  {
    if i > 0 {
      hide Inv, Step;
      RunInv(ps, es, i - 1);
      assert StepAt(ps, es, i - 1);
      StepInv(ps[i - 1], es[i - 1]);
    }
  }

  // Whenever nothing is under way, both ends have the option enabled or both have it disabled; and no
  // end is ever in one of the other three states.
  lemma QuietEndsAgree(ps: seq<Pair>, es: seq<Event>, i: nat)
    requires IsRun(ps, es) && i <= |es|
    ensures Basic(ps[i].local) && Basic(ps[i].peer)
    ensures ps[i].toPeer == [] && ps[i].toLocal == [] ==> ps[i].local == ps[i].peer && ps[i].local != ExpectEnable
  {
    RunInv(ps, es, i);
  }

  // ---------------------------------------------------------------- bounds, when no end asks while it waits

  predicate Patient(p: Pair, e: Event) {
    e.Request? ==> (if e.atLocal then p.local else p.peer) != ExpectEnable
  }

  ghost predicate IsPatientRun(ps: seq<Pair>, es: seq<Event>) {
    IsRun(ps, es) && forall i: nat {:trigger ps[i], es[i]} :: i < |es| ==> Patient(ps[i], es[i])
  }

  // The situations in which one end waits for the other.
  predicate Waits(local: OptState, peer: OptState, toPeer: seq<Msg>, toLocal: seq<Msg>) {
    local == ExpectEnable &&
    ((peer == Disable && toPeer == [On] && toLocal == []) ||
     (peer == Disable && toPeer == [] && toLocal == [Off]) ||
     (peer == Enable && toPeer == [] && toLocal == [On]) ||
     (peer == ExpectEnable && toPeer == [] && toLocal == [Off, On]))
  }

  predicate Situation(p: Pair) {
    || (p.local == p.peer && p.local in {Disable, Enable} && p.toPeer == [] && p.toLocal == [])
    || (p.local == p.peer == ExpectEnable && p.toPeer == [On] && p.toLocal == [On])
    || Waits(p.local, p.peer, p.toPeer, p.toLocal)
    || Waits(p.peer, p.local, p.toLocal, p.toPeer)
  }

  // Replies that requests under way may still cause.
  function Due(s: OptState, incoming: seq<Msg>): nat {
    if (s == Disable && incoming == [On]) || incoming == [Off, On] then 1 else 0
  }

  function Replies(p: Pair): nat { Due(p.peer, p.toPeer) + Due(p.local, p.toLocal) }

  predicate Bounded(p: Pair) { Situation(p) && p.sent + Replies(p) <= 2 * p.requests }

  // What is under way, counting replies.
  function Work(p: Pair): nat { |p.toPeer| + |p.toLocal| + Replies(p) }

  lemma LocalRequest(p: Pair, e: Event)
    requires Bounded(p) && e.Request? && p.local != ExpectEnable
    ensures Bounded(LocalStep(p, e))
  {}

  lemma LocalArrival(p: Pair, e: Event)
    requires Bounded(p) && e.Arrive? && p.toLocal != []
    ensures Bounded(LocalStep(p, e)) && Work(LocalStep(p, e)) < Work(p)
  {
    var p' := LocalStep(p, e);
    assert p.toLocal == [p.toLocal[0]] + p'.toLocal;
  }

  lemma TurnSame(p: Pair)
    ensures Bounded(Turn(p)) <==> Bounded(p)
    ensures Work(Turn(p)) == Work(p)
  {}

  lemma StepBounded(p: Pair, e: Event)
    requires Bounded(p) && Possible(p, e) && Patient(p, e)
    ensures Bounded(Step(p, e)) && (e.Arrive? ==> Work(Step(p, e)) < Work(p))
  {
    hide Bounded, Work, LocalStep;
    var q := if e.atLocal then p else Turn(p);
    TurnSame(p);
    TurnSame(LocalStep(q, e));
    if e.Request? { LocalRequest(q, e); } else { LocalArrival(q, e); }
  }

  lemma {:induction false} RunBounded(ps: seq<Pair>, es: seq<Event>, i: nat)
    requires IsPatientRun(ps, es) && i <= |es|
    ensures Bounded(ps[i])
  {
    if i > 0 {
      hide Bounded, Step;
      RunBounded(ps, es, i - 1);
      assert StepAt(ps, es, i - 1);
      StepBounded(ps[i - 1], es[i - 1]);
    }
  }

  // At most two messages are sent for each request, and without a new request at most four more
  // messages arrive.
  lemma MessagesAreBounded(ps: seq<Pair>, es: seq<Event>, i: nat)
    requires IsPatientRun(ps, es) && i <= |es|
    ensures ps[i].sent <= 2 * ps[i].requests && Work(ps[i]) <= 4
  {
    RunBounded(ps, es, i);
  }

  lemma {:induction false} WorkIsDone(ps: seq<Pair>, es: seq<Event>, i: nat, j: nat)
    requires IsPatientRun(ps, es) && i <= j <= |es|
    requires forall k :: i <= k < j ==> es[k].Arrive?
    ensures Work(ps[j]) + (j - i) <= Work(ps[i])
    decreases j
  {
    if i < j {
      hide Work, Bounded, Step;
      WorkIsDone(ps, es, i, j - 1);
      RunBounded(ps, es, j - 1);
      assert StepAt(ps, es, j - 1);
      StepBounded(ps[j - 1], es[j - 1]);
    }
  }

  // So the exchange comes to rest, whatever the settings of the two ends.
  lemma ExchangeSettles(ps: seq<Pair>, es: seq<Event>, i: nat, j: nat)
    requires IsPatientRun(ps, es) && i <= j <= |es|
    requires forall k :: i <= k < j ==> es[k].Arrive?
    ensures j - i <= 4
  {
    MessagesAreBounded(ps, es, i);
    WorkIsDone(ps, es, i, j);
  }

  // An end that asks again while it waits breaks the bound.
  function ImpatientEvent(i: nat): Event {
    if i in {0, 1, 4} then Request(true) else if i in {2, 5, 7} then Arrive(false, true) else Arrive(true, false)
  }

  function ImpatientPair(i: nat): Pair {
    if i == 0 then Start
    else if i == 1 then Pair(ExpectEnable, Disable, [On], [], 1, 1)
    else if i == 2 then Pair(Disable, Disable, [On], [], 2, 1)
    else if i == 3 then Pair(Disable, Enable, [], [On], 2, 2)
    else if i == 4 then Pair(Disable, Enable, [Off], [], 2, 3)
    else if i == 5 then Pair(ExpectEnable, Enable, [Off, On], [], 3, 4)
    else if i == 6 then Pair(ExpectEnable, Disable, [On], [Off], 3, 5)
    else if i == 7 then Pair(Disable, Disable, [On], [], 3, 5)
    else if i == 8 then Pair(Disable, Enable, [], [On], 3, 6)
    else Pair(Disable, Enable, [Off], [], 3, 7)
  }

  lemma ImpatientStep(i: nat)
    requires i < 9
    ensures Possible(ImpatientPair(i), ImpatientEvent(i)) && Step(ImpatientPair(i), ImpatientEvent(i)) == ImpatientPair(i + 1)
  {
    if i == 5 { assert [Off, On][1..] == [On]; }
  }

  // Three requests cause seven messages, although the local end never has the option enabled and the
  // other one always has.
  lemma ImpatienceCostsMessages() returns (ps: seq<Pair>, es: seq<Event>)
    ensures IsSteadyRun(ps, es, false, true) && |es| == 9 && ps[9].requests == 3 && ps[9].sent == 7
  {
    ps := seq(10, i requires 0 <= i < 10 => ImpatientPair(i));
    es := seq(9, i requires 0 <= i < 9 => ImpatientEvent(i));
    forall i: nat | i < |es| ensures StepAt(ps, es, i) {
      hide Step, ImpatientPair, ImpatientEvent, Possible;
      ImpatientStep(i);
    }
  }

  // ---------------------------------------------------------------- no bound at all, when settings change

  // The exchange that never ends: four arrivals lead back to the same states and channels.
  function Endless(sent: nat): Pair { Pair(Disable, Disable, [On, Off], [], 4, sent) }

  function EndlessEvents(): seq<Event> { [Arrive(false, true), Arrive(true, true), Arrive(false, true), Arrive(true, true)] }

  function EndlessPair(i: nat, sent: nat): Pair {
    if i == 0 then Endless(sent)
    else if i == 1 then Pair(Disable, Enable, [Off], [On], 4, sent + 1)
    else if i == 2 then Pair(Enable, Enable, [Off, On], [], 4, sent + 2)
    else if i == 3 then Pair(Enable, Disable, [On], [Off], 4, sent + 3)
    else Endless(sent + 4)
  }

  lemma EndlessStep(i: nat, sent: nat)
    requires i < 4
    ensures Possible(EndlessPair(i, sent), EndlessEvents()[i])
    ensures Step(EndlessPair(i, sent), EndlessEvents()[i]) == EndlessPair(i + 1, sent)
  {
    assert [On, Off][1..] == [Off] && [Off, On][1..] == [On] && [On][1..] == [] && [Off][1..] == [];
    assert [Off] + [On] == [Off, On] && [On] + [Off] == [On, Off];
  }

  lemma Extended(ps: seq<Pair>, es: seq<Event>, e: Event)
    requires IsRun(ps, es) && Possible(ps[|es|], e)
    ensures IsRun(ps + [Step(ps[|es|], e)], es + [e])
  {
    hide Step, Possible;
    var ps', es' := ps + [Step(ps[|es|], e)], es + [e];
    forall i: nat | i < |es'| ensures StepAt(ps', es', i) {
      if i < |es| { assert StepAt(ps, es, i); }
    }
  }

  lemma {:induction false} EndlessRound(ps: seq<Pair>, es: seq<Event>, sent: nat, i: nat) returns (ps': seq<Pair>, es': seq<Event>)
    requires IsRun(ps, es) && ps[|es|] == Endless(sent) && i <= 4
    ensures IsRun(ps', es') && es' == es + EndlessEvents()[..i] && ps'[|es'|] == EndlessPair(i, sent)
  {
    hide Step, Possible, EndlessPair;
    if i == 0 {
      ps', es' := ps, es;
      assert EndlessPair(0, sent) == Endless(sent) by { EndlessStart(sent); }
    } else {
      ps', es' := EndlessRound(ps, es, sent, i - 1);
      EndlessStep(i - 1, sent);
      Extended(ps', es', EndlessEvents()[i - 1]);
      ps', es' := ps' + [Step(ps'[|es'|], EndlessEvents()[i - 1])], es' + [EndlessEvents()[i - 1]];
    }
  }

  lemma EndlessStart(sent: nat)
    ensures EndlessPair(0, sent) == Endless(sent) && EndlessPair(4, sent) == Endless(sent + 4)
  {}

  // The way into it.
  function PreludeEvents(): seq<Event> { [Request(true), Request(true), Request(false), Arrive(true, false), Request(false)] }

  function PreludePair(i: nat): Pair {
    if i == 0 then Start
    else if i == 1 then Pair(ExpectEnable, Disable, [On], [], 1, 1)
    else if i == 2 then Pair(Disable, Disable, [On], [], 2, 1)
    else if i == 3 then Pair(Disable, ExpectEnable, [On], [On], 3, 2)
    else if i == 4 then Pair(Disable, ExpectEnable, [On, Off], [], 3, 3)
    else Endless(3)
  }

  lemma PreludeStep(i: nat)
    requires i < 5
    ensures Possible(PreludePair(i), PreludeEvents()[i]) && Step(PreludePair(i), PreludeEvents()[i]) == PreludePair(i + 1)
  {}

  lemma {:induction false} EndlessRounds(n: nat) returns (ps: seq<Pair>, es: seq<Event>)
    ensures IsRun(ps, es) && ps[|es|] == Endless(3 + 4 * n) && |es| == 5 + 4 * n
    ensures forall k :: 5 <= k < |es| ==> es[k].Arrive?
  {
    hide IsRun;
    if n == 0 {
      ps, es := Prelude();
    } else {
      var before;
      ps, before := EndlessRounds(n - 1);
      ps, es := EndlessRound(ps, before, 3 + 4 * (n - 1), 4);
      EndlessStart(3 + 4 * (n - 1));
      assert EndlessEvents()[..4] == EndlessEvents();
    }
  }

  lemma Prelude() returns (ps: seq<Pair>, es: seq<Event>)
    ensures IsRun(ps, es) && ps[|es|] == Endless(3) && |es| == 5
  {
    ps := seq(6, i requires 0 <= i < 6 => PreludePair(i));
    es := PreludeEvents();
    forall i: nat | i < |es| ensures StepAt(ps, es, i) {
      hide Step, PreludePair, Possible;
      PreludeStep(i);
    }
  }

  // When an end asks while it waits and settings change, four requests can cause any number of
  // messages, with nothing but arrivals after the first five steps.
  lemma ExchangeNeedNotSettle(n: nat) returns (ps: seq<Pair>, es: seq<Event>)
    ensures IsRun(ps, es) && ps[|es|].requests == 4 && ps[|es|].sent >= n
    ensures |es| >= 5 && forall k :: 5 <= k < |es| ==> es[k].Arrive?
  {
    ps, es := EndlessRounds(n);
  }

  // ---------------------------------------------------------------- bounds, when settings do not change

  // Each end always has the same setting.
  predicate Follows(e: Event, localSet: bool, peerSet: bool) {
    e.Arrive? ==> e.enabled == if e.atLocal then localSet else peerSet
  }

  ghost predicate IsSteadyRun(ps: seq<Pair>, es: seq<Event>, localSet: bool, peerSet: bool) {
    IsRun(ps, es) && forall i: nat {:trigger es[i]} :: i < |es| ==> Follows(es[i], localSet, peerSet)
  }

  // How much may still arrive because of a message, and because of a state.
  function MsgLoad(m: Msg, from: bool, to: bool): nat {
    if from && to then 1
    else if to then (if m == On then 4 else 2)
    else if from then (if m == On then 3 else 1)
    else (if m == On then 2 else 1)
  }

  function StateLoad(s: OptState, self: bool, other: bool): nat {
    if self && other then (if s == Disable then 1 else 0)
    else if self then 0
    else if other then (if s == Disable then 0 else 2)
    else if s == Disable then 0 else if s == Enable then 1 else 2
  }

  function ChannelLoad(c: seq<Msg>, from: bool, to: bool): nat {
    if c == [] then 0 else MsgLoad(c[0], from, to) + ChannelLoad(c[1..], from, to)
  }

  function Load(p: Pair, localSet: bool, peerSet: bool): nat {
    ChannelLoad(p.toPeer, localSet, peerSet) + ChannelLoad(p.toLocal, peerSet, localSet) +
    StateLoad(p.local, localSet, peerSet) + StateLoad(p.peer, peerSet, localSet)
  }

  lemma {:induction false} ChannelLoadAdd(c: seq<Msg>, m: Msg, from: bool, to: bool)
    ensures ChannelLoad(c + [m], from, to) == ChannelLoad(c, from, to) + MsgLoad(m, from, to)
  {
    if c == [] {
      assert (c + [m])[1..] == [];
    } else {
      ChannelLoadAdd(c[1..], m, from, to);
      assert (c + [m])[1..] == c[1..] + [m];
    }
  }

  lemma {:induction false} ChannelLoadAtMost(c: seq<Msg>, from: bool, to: bool)
    ensures ChannelLoad(c, from, to) <= 4 * |c|
  {
    if c != [] { ChannelLoadAtMost(c[1..], from, to); }
  }

  // Where both ends have the option enabled, nobody says Off.
  predicate NoOff(p: Pair, localSet: bool, peerSet: bool) {
    localSet && peerSet ==> Off !in p.toPeer && Off !in p.toLocal
  }

  ghost predicate Steady(p: Pair, localSet: bool, peerSet: bool) {
    Basic(p.local) && Basic(p.peer) && NoOff(p, localSet, peerSet)
  }

  lemma LocalArrivalUnloads(p: Pair, localSet: bool, peerSet: bool)
    requires Steady(p, localSet, peerSet) && p.toLocal != []
    ensures var p' := LocalStep(p, Arrive(true, localSet));
      Steady(p', localSet, peerSet) && Load(p', localSet, peerSet) < Load(p, localSet, peerSet)
  {
    var r := Receive(p.local, p.toLocal[0], localSet);
    if r.out != [] { ChannelLoadAdd(p.toPeer, r.out[0], localSet, peerSet); }
    assert p.toPeer + [] == p.toPeer;
  }

  lemma LocalRequestSteady(p: Pair, localSet: bool, peerSet: bool)
    requires Steady(p, localSet, peerSet)
    ensures Steady(LocalStep(p, Request(true)), localSet, peerSet)
  {}

  lemma StepSteady(p: Pair, e: Event, localSet: bool, peerSet: bool)
    requires Steady(p, localSet, peerSet) && Possible(p, e) && Follows(e, localSet, peerSet)
    ensures Steady(Step(p, e), localSet, peerSet)
    ensures e.Arrive? ==> Load(Step(p, e), localSet, peerSet) < Load(p, localSet, peerSet)
  {
    if e.atLocal {
      if e.Request? { LocalRequestSteady(p, localSet, peerSet); } else { LocalArrivalUnloads(p, localSet, peerSet); }
    } else {
      if e.Request? { LocalRequestSteady(Turn(p), peerSet, localSet); } else { LocalArrivalUnloads(Turn(p), peerSet, localSet); }
      SidesDoNotMatter(p, e);
    }
  }

  // A step at the far end is a step at the near end of the turned pair.
  lemma SidesDoNotMatter(p: Pair, e: Event)
    requires Possible(p, e) && !e.atLocal
    ensures Step(p, e) == Turn(LocalStep(Turn(p), if e.Request? then Request(true) else Arrive(true, e.enabled)))
  {}

  lemma {:induction false} RunSteady(ps: seq<Pair>, es: seq<Event>, localSet: bool, peerSet: bool, i: nat)
    requires IsSteadyRun(ps, es, localSet, peerSet) && i <= |es|
    ensures Steady(ps[i], localSet, peerSet)
  {
    if i > 0 {
      hide Steady, Step;
      RunSteady(ps, es, localSet, peerSet, i - 1);
      assert StepAt(ps, es, i - 1) && Follows(es[i - 1], localSet, peerSet);
      StepSteady(ps[i - 1], es[i - 1], localSet, peerSet);
    }
  }

  lemma {:induction false} LoadIsDone(ps: seq<Pair>, es: seq<Event>, localSet: bool, peerSet: bool, i: nat, j: nat)
    requires IsSteadyRun(ps, es, localSet, peerSet) && i <= j <= |es| && forall k :: i <= k < j ==> es[k].Arrive?
    ensures Load(ps[j], localSet, peerSet) + (j - i) <= Load(ps[i], localSet, peerSet)
    decreases j
  {
    if i < j {
      hide Load, Steady, Step;
      LoadIsDone(ps, es, localSet, peerSet, i, j - 1);
      RunSteady(ps, es, localSet, peerSet, j - 1);
      assert StepAt(ps, es, j - 1) && Follows(es[j - 1], localSet, peerSet);
      StepSteady(ps[j - 1], es[j - 1], localSet, peerSet);
    }
  }

  // With settings that do not change, every exchange comes to rest, whenever requests were made.
  lemma SteadyExchangeSettles(ps: seq<Pair>, es: seq<Event>, localSet: bool, peerSet: bool, i: nat, j: nat)
    requires IsSteadyRun(ps, es, localSet, peerSet) && i <= j <= |es| && forall k :: i <= k < j ==> es[k].Arrive?
    ensures j - i <= 4 * (|ps[i].toPeer| + |ps[i].toLocal| + 1)
  {
    LoadIsDone(ps, es, localSet, peerSet, i, j);
    ChannelLoadAtMost(ps[i].toPeer, localSet, peerSet);
    ChannelLoadAtMost(ps[i].toLocal, peerSet, localSet);
  }

  // Replies that a message, or a state, may still cause.
  function MsgCost(m: Msg, from: bool, to: bool): nat {
    if from && to then 0
    else if to then (if m == On then 3 else 1)
    else if from then (if m == On then 2 else 0)
    else (if m == On then 1 else 0)
  }

  function StateCost(s: OptState, self: bool, other: bool): nat {
    if self && other then (if s == Disable then 1 else 0)
    else if self then 0
    else if s == Enable then (if other then 2 else 1)
    else 0
  }

  function ChannelCost(c: seq<Msg>, from: bool, to: bool): nat {
    if c == [] then 0 else MsgCost(c[0], from, to) + ChannelCost(c[1..], from, to)
  }

  function Cost(p: Pair, localSet: bool, peerSet: bool): nat {
    ChannelCost(p.toPeer, localSet, peerSet) + ChannelCost(p.toLocal, peerSet, localSet) +
    StateCost(p.local, localSet, peerSet) + StateCost(p.peer, peerSet, localSet)
  }

  lemma {:induction false} ChannelCostAdd(c: seq<Msg>, m: Msg, from: bool, to: bool)
    ensures ChannelCost(c + [m], from, to) == ChannelCost(c, from, to) + MsgCost(m, from, to)
  {
    if c == [] {
      assert (c + [m])[1..] == [];
    } else {
      ChannelCostAdd(c[1..], m, from, to);
      assert (c + [m])[1..] == c[1..] + [m];
    }
  }

  // What a request may cost: one message and its consequences.
  function PerRequest(localSet: bool, peerSet: bool): nat { if localSet && peerSet then 1 else 4 }

  // Two ends that both have the option enabled may each reply once without being asked.
  function Spare(localSet: bool, peerSet: bool): nat { if localSet && peerSet then 2 else 0 }

  predicate Paid(p: Pair, localSet: bool, peerSet: bool) {
    && p.sent + Cost(p, localSet, peerSet) <= PerRequest(localSet, peerSet) * p.requests + Spare(localSet, peerSet)
    && (p.requests == 0 ==> p == Start)
  }

  lemma LocalArrivalPaid(p: Pair, e: Event, localSet: bool, peerSet: bool)
    requires Steady(p, localSet, peerSet) && Paid(p, localSet, peerSet) && e.Arrive? && p.toLocal != [] && e.enabled == localSet
    ensures Paid(LocalStep(p, e), localSet, peerSet)
  {
    var r := Receive(p.local, p.toLocal[0], e.enabled);
    if r.out != [] { ChannelCostAdd(p.toPeer, r.out[0], localSet, peerSet); }
    assert p.toPeer + [] == p.toPeer;
  }

  lemma LocalRequestPaid(p: Pair, e: Event, localSet: bool, peerSet: bool)
    requires Steady(p, localSet, peerSet) && Paid(p, localSet, peerSet) && e.Request?
    ensures Paid(LocalStep(p, e), localSet, peerSet)
  {
    var r := SendEnable(p.local);
    if r.out != [] { ChannelCostAdd(p.toPeer, On, localSet, peerSet); }
    assert p.toPeer + [] == p.toPeer;
  }

  lemma LocalStepPaid(p: Pair, e: Event, localSet: bool, peerSet: bool)
    requires Steady(p, localSet, peerSet) && Paid(p, localSet, peerSet) && (e.Arrive? ==> p.toLocal != [] && e.enabled == localSet)
    ensures Paid(LocalStep(p, e), localSet, peerSet)
  {
    hide Paid, LocalStep, Steady;
    if e.Request? { LocalRequestPaid(p, e, localSet, peerSet); } else { LocalArrivalPaid(p, e, localSet, peerSet); }
  }

  lemma StepPaid(p: Pair, e: Event, localSet: bool, peerSet: bool)
    requires Steady(p, localSet, peerSet) && Paid(p, localSet, peerSet) && Possible(p, e) && Follows(e, localSet, peerSet)
    ensures Paid(Step(p, e), localSet, peerSet)
  {
    hide LocalStep;
    if e.atLocal { LocalStepPaid(p, e, localSet, peerSet); } else { LocalStepPaid(Turn(p), e, peerSet, localSet); }
  }

  lemma {:induction false} RunPaid(ps: seq<Pair>, es: seq<Event>, localSet: bool, peerSet: bool, i: nat)
    requires IsSteadyRun(ps, es, localSet, peerSet) && i <= |es|
    ensures Paid(ps[i], localSet, peerSet)
  {
    if i > 0 {
      hide Paid, Steady, Step;
      RunPaid(ps, es, localSet, peerSet, i - 1);
      RunSteady(ps, es, localSet, peerSet, i - 1);
      assert StepAt(ps, es, i - 1) && Follows(es[i - 1], localSet, peerSet);
      StepPaid(ps[i - 1], es[i - 1], localSet, peerSet);
    }
  }

  // And at most four messages are sent for each request.
  lemma SteadyMessagesAreBounded(ps: seq<Pair>, es: seq<Event>, localSet: bool, peerSet: bool, i: nat)
    requires IsSteadyRun(ps, es, localSet, peerSet) && i <= |es|
    ensures ps[i].sent <= 4 * ps[i].requests
  {
    RunPaid(ps, es, localSet, peerSet, i);
  }
}
