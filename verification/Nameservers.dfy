/** The nameserver state machine of the resolver, and the choice of servers to query (resolver.c).
    Times are in milliseconds. */
module Nameservers {
  import opened Options

  datatype NsState = Probing | Active | Bad

  type Address = nat

  // qId and sentTime are those of the query whose response time is being measured.
  datatype Server = Server(addr: Address, state: NsState, expiry: int, rtDelay: int, qId: nat, sentTime: int)

  datatype Settings = Settings(qretrCount: nat, qretrDelay: nat, goodTtl: nat, badTtl: nat)

  // set_nameserver_state
  function InState(s: Server, state: NsState, now: int, c: Settings): Server {
    var secs := match state
      case Probing => (c.qretrCount + 2) * c.qretrDelay / 1000
      case Active => c.goodTtl
      case Bad => c.badTtl;
    s.(state := state, expiry := now + 1000 * secs)
  }

  // What a look at a server does: a probe that was not answered in time makes it bad, and any other
  // state that has expired is probed again.
  function Checked(s: Server, now: int, c: Settings): Server {
    if s.expiry > now then s
    else InState(s, if s.state == Probing then Bad else Probing, now, c)
  }

  const REFUSED := 5
  const NOTAUTH := 9

  // The header of a response that could be parsed.
  datatype Reply = Reply(id: nat, rcode: nat)

  predicate IsGood(reply: Option<Reply>) {
    reply.Some? && reply.value.rcode != REFUSED && reply.value.rcode != NOTAUTH
  }

  // What hearing from a server does to it.
  function Heard(s: Server, reply: Option<Reply>, now: int, c: Settings): Server {
    var timed := if reply.Some? && reply.value.id == s.qId then s.(rtDelay := now - s.sentTime, qId := 0) else s;
    InState(timed, if IsGood(reply) then Active else Bad, now, c)
  }

  function Lookup(ns: seq<Server>, addr: Address, i: nat): (k: nat)
    requires i <= |ns|
    ensures i <= k <= |ns| && (k < |ns| ==> ns[k].addr == addr) && forall j :: i <= j < k ==> ns[j].addr != addr
    decreases |ns| - i
  {
    if i == |ns| || ns[i].addr == addr then i else Lookup(ns, addr, i + 1)
  }

  // The earliest of the active servers with the least response time.
  ghost predicate IsBest(ns: seq<Server>, b: nat) {
    && b < |ns| && ns[b].state == Active
    && (forall i :: 0 <= i < |ns| && ns[i].state == Active ==> ns[b].rtDelay <= ns[i].rtDelay)
    && (forall i :: 0 <= i < b && ns[i].state == Active ==> ns[b].rtDelay < ns[i].rtDelay)
  }

  // The best server, and all that are being probed once they have been looked at.
  ghost predicate Selected(ns: seq<Server>, i: nat, now: int, c: Settings) {
    i < |ns| && (IsBest(ns, i) || Checked(ns[i], now, c).state == Probing)
  }

  // ---------------------------------------------------------------- runs

  datatype Event = Look(now: int) | Answer(addr: Address, reply: Option<Reply>, now: int)

  // A look leaves servers out when the list is full; an answer changes the first server of its address.
  ghost predicate StepTo(ns: seq<Server>, ns': seq<Server>, e: Event, c: Settings) {
    |ns'| == |ns| &&
    match e
    case Look(now) => forall i :: 0 <= i < |ns| ==> ns'[i] == Checked(ns[i], now, c) || ns'[i] == ns[i]
    case Answer(addr, reply, now) =>
      forall i :: 0 <= i < |ns| ==> ns'[i] == if i == Lookup(ns, addr, 0) then Heard(ns[i], reply, now, c) else ns[i]
  }

  ghost predicate IsRun(run: seq<seq<Server>>, es: seq<Event>, c: Settings) {
    |run| == |es| + 1 && forall k: nat :: k < |es| ==> StepTo(run[k], run[k + 1], es[k], c)
  }

  // A server that is bad stays as it is, and is not queried, at all looks before its state expires,
  // whatever is heard from the others.
  lemma {:induction false} BadIsLeftAlone(run: seq<seq<Server>>, es: seq<Event>, c: Settings, i: nat, a: nat, b: nat)
    requires IsRun(run, es, c) && a <= b <= |es| && i < |run[a]| && run[a][i].state == Bad
    requires forall k :: a <= k < b ==> if es[k].Look? then es[k].now < run[a][i].expiry else es[k].addr != run[a][i].addr
    ensures i < |run[b]| && run[b][i] == run[a][i]
    ensures forall now :: now < run[a][i].expiry ==> !Selected(run[b], i, now, c)
    decreases b
  {
    if a < b {
      BadIsLeftAlone(run, es, c, i, a, b - 1);
      assert StepTo(run[b - 1], run[b - 1 + 1], es[b - 1], c);
    }
  }

  // ---------------------------------------------------------------- what answers and probes decide

  // A response that could be parsed and neither refused the query nor disowned the zone.
  predicate Welcome(reply: Option<Reply>) { reply.Some? && reply.value.rcode != 5 && reply.value.rcode != 9 }

  // No other answer from the address of server i, and only looks before the limit.
  ghost predicate Quiet(es: seq<Event>, addr: Address, a: nat, b: nat, limit: int) {
    forall k :: a < k < b && k < |es| ==> if es[k].Look? then es[k].now < limit else es[k].addr != addr
  }

  // While nothing is heard from it and no look comes too late, a server stays as it is.
  lemma {:induction false} StaysAsIs(run: seq<seq<Server>>, es: seq<Event>, c: Settings, i: nat, a: nat, b: nat)
    requires IsRun(run, es, c) && a < b <= |es| && i < |run[a + 1]|
    requires Quiet(es, run[a + 1][i].addr, a, b, run[a + 1][i].expiry)
    ensures i < |run[b]| && run[b][i] == run[a + 1][i]
    decreases b
  {
    if a + 1 < b {
      StaysAsIs(run, es, c, i, a, b - 1);
      assert StepTo(run[b - 1], run[b - 1 + 1], es[b - 1], c);
    }
  }

  // An answer at time t decides for good_ns_ttl or bad_ns_ttl seconds: after a welcome one the server is
  // active, and queried while it is the best; after any other, or one that could not be parsed, it is not
  // queried. After that time the server is queried again, to probe it.
  lemma AnswerDecides(run: seq<seq<Server>>, es: seq<Event>, c: Settings, i: nat, a: nat, b: nat, reply: Option<Reply>, t: int, now: int)
    requires IsRun(run, es, c) && a < b <= |es| && i < |run[a]| && es[a] == Answer(run[a][i].addr, reply, t)
    requires forall j :: 0 <= j < i ==> run[a][j].addr != run[a][i].addr
    requires Quiet(es, run[a][i].addr, a, b, t + 1000 * if Welcome(reply) then c.goodTtl else c.badTtl)
    ensures i < |run[b]| && run[b][i].state == if Welcome(reply) then Active else Bad
    ensures reply.Some? && reply.value.id == run[a][i].qId ==> run[b][i].rtDelay == t - run[a][i].sentTime
    ensures now < t + 1000 * (if Welcome(reply) then c.goodTtl else c.badTtl) ==>
      (Selected(run[b], i, now, c) <==> Welcome(reply) && IsBest(run[b], i))
    ensures now >= t + 1000 * (if Welcome(reply) then c.goodTtl else c.badTtl) ==> Selected(run[b], i, now, c)
  {
    assert StepTo(run[a], run[a + 1], es[a], c);
    assert Lookup(run[a], run[a][i].addr, 0) == i;
    assert run[a + 1][i] == Heard(run[a][i], reply, t, c);
    hide IsRun, StepTo, IsBest, Quiet;
    StaysAsIs(run, es, c, i, a, b);
  }

  // A probe begun by a look at time t lasts (qretr_count + 2) * qretr_delay, in whole seconds: until then the
  // server is queried at every look, and a look after that gives it up.
  lemma ProbeDecides(run: seq<seq<Server>>, es: seq<Event>, c: Settings, i: nat, a: nat, b: nat, t: int, now: int)
    requires IsRun(run, es, c) && a < b <= |es| && i < |run[a]| && es[a] == Look(t)
    requires run[a][i].state != Probing && i < |run[a + 1]| && run[a + 1][i].state == Probing
    requires Quiet(es, run[a][i].addr, a, b, t + 1000 * ((c.qretrCount + 2) * c.qretrDelay / 1000))
    ensures i < |run[b]| && run[b][i].state == Probing
    ensures now < t + 1000 * ((c.qretrCount + 2) * c.qretrDelay / 1000) ==> Selected(run[b], i, now, c)
    ensures now >= t + 1000 * ((c.qretrCount + 2) * c.qretrDelay / 1000) ==> !Selected(run[b], i, now, c)
  {
    assert StepTo(run[a], run[a + 1], es[a], c);
    assert run[a + 1][i] == Checked(run[a][i], t, c);
    hide IsRun, StepTo, Quiet;
    StaysAsIs(run, es, c, i, a, b);
  }

  // ---------------------------------------------------------------- the server table

  datatype Choice = NoServers | Servers(list: seq<nat>)

  ghost predicate Distinct(list: seq<nat>) { forall i, j :: 0 <= i < j < |list| ==> list[i] != list[j] }

  class ServerTable {
    const ns: array<Server>
    const settings: Settings

    constructor (ns: array<Server>, settings: Settings)
      ensures this.ns == ns && this.settings == settings
    {
      this.ns, this.settings := ns, settings;
    }

    method Best() returns (min: int)
      ensures -1 <= min < ns.Length
      ensures min >= 0 ==> IsBest(ns[..], min)
      ensures min == -1 ==> forall i :: 0 <= i < ns.Length ==> ns[i].state != Active
    {
      min := -1;
      for i := 0 to ns.Length
        invariant -1 <= min < i
        invariant min == -1 ==> forall k :: 0 <= k < i ==> ns[k].state != Active
        invariant min >= 0 ==> IsBest(ns[..i], min)
      {
        if ns[i].state == Active {
          if min == -1 {
            min := i;
          } else if ns[i].rtDelay < ns[min].rtDelay {
            min := i;
          }
        }
      }
      assert ns[..ns.Length] == ns[..];
    }

    // select_nameservers. Only selected servers are listed; all of them, if the list was not cut short
    // at maxCount.
    method Select(maxCount: nat, now: int) returns (r: Choice)
      requires 0 < maxCount
      modifies ns
      ensures r.NoServers? <==> ns.Length == 0
      ensures r.NoServers? ==> ns[..] == old(ns[..])
      ensures r.Servers? ==> Distinct(r.list) && |r.list| <= maxCount
      ensures r.Servers? ==> forall i: nat :: i in r.list ==> Selected(old(ns[..]), i, now, settings)
      ensures r.Servers? && (|r.list| < maxCount || ns.Length <= maxCount) ==>
        forall i: nat :: i < ns.Length ==>
          && (i in r.list <==> Selected(old(ns[..]), i, now, settings))
          && (i in r.list <==> ns[i].state == Probing || IsBest(old(ns[..]), i))
          && (ns[i] == Checked(old(ns[..])[i], now, settings) || (IsBest(old(ns[..]), i) && ns[i] == old(ns[..])[i]))
      ensures StepTo(old(ns[..]), ns[..], Look(now), settings)
    {
      if ns.Length == 0 {
        return NoServers;
      }
      var min := Best();
      var list: seq<nat> := if min >= 0 then [min] else [];
      var i := 0;
      while i < ns.Length && |list| < maxCount
        invariant i <= ns.Length && |list| <= maxCount && |list| <= i + (if min >= i then 1 else 0)
        invariant forall k {:trigger ns[k]} :: 0 <= k < i ==> ns[k] == old(Checked(ns[k], now, settings))
        invariant forall k {:trigger ns[k]} :: i <= k < ns.Length ==> ns[k] == old(ns[k])
        invariant Distinct(list)
        invariant forall k: nat :: k in list <==> k == min || (k < i && old(Checked(ns[k], now, settings)).state == Probing)
      {
        var s := ns[i];
        if s.expiry <= now {
          if s.state == Probing {
            ns[i] := InState(s, Bad, now, settings);
          } else {
            ns[i] := InState(s, Probing, now, settings);
            if i != min {
              list := list + [i];
            }
          }
        } else if s.state == Probing && i != min {
          list := list + [i];
        }
        i := i + 1;
      }
      r := Servers(list);
    }

    // report_nameserver_status
    method Report(addr: Address, reply: Option<Reply>, now: int)
      modifies ns
      ensures StepTo(old(ns[..]), ns[..], Answer(addr, reply, now), settings)
    {
      var isGood := reply.Some? && reply.value.rcode != REFUSED && reply.value.rcode != NOTAUTH;
      var i := 0;
      while i < ns.Length && ns[i].addr != addr
        invariant i <= ns.Length && Lookup(ns[..], addr, i) == Lookup(ns[..], addr, 0)
        invariant ns[..] == old(ns[..])
      {
        i := i + 1;
      }
      if i < ns.Length {
        if reply.Some? && reply.value.id == ns[i].qId {
          ns[i] := ns[i].(rtDelay := now - ns[i].sentTime, qId := 0);
        }
        ns[i] := InState(ns[i], if isGood then Active else Bad, now, settings);
      }
    }
  }
}
