/** The resolver as a whole: queries and cache joined. A request first looks into the cache; an answered
    query is stored before its nodes are recycled. */
module ResolverService {
  import opened DnsTypes
  import opened DnsCopy
  import opened ResolverNet
  import Q = ResolverRuns
  import Cache = ResolverCache
  import Timeouts = ResolverTimeouts

  // ---------------------------------------------------------------- steps

  // answers holds the packets of the answered queries whose callbacks are being made, readers the cached
  // packets of the requests that hit.
  datatype System = System(queries: Q.State, cache: Cache.Cache, answers: map<Ref, Packet>, readers: map<Req, Cache.Reader>)

  const Unused := System(Q.Initial, Cache.Empty, map[], map[])

  datatype Event =
    | Ask(key: Key, cb: bool, sent: bool, now: nat)
    | Arrive(id: nat, pkt: Packet)
    | Other(e: Q.Event)                // a cancel, an expiry or a callback
    | Finish(q: Ref, now: nat)
    | TellCached(req: Req)             // the callback with a cached packet
    | LetGo(req: Req)                  // and the packet is no longer used
    | Add(key: Key, setExpiry: bool, pkt: Packet, now: nat)   // pj_dns_resolver_add_entry

  function RcodeOf(p: Packet): nat { Rcode(p.flags) }

  predicate IsTruncated(p: Packet) { p.flags / 0x200 % 2 == 1 }

  predicate IsSet(flags: nat, mask: bv16)
    requires flags < 0x10000
  {
    flags as bv16 & mask != 0
  }

  // The fields of the flags, bit by bit (section 4.1.1 of RFC 1035).
  lemma FlagBits(p: Packet)
    requires p.flags < 0x10000
    ensures RcodeOf(p) ==
      (if IsSet(p.flags, 8) then 8 else 0) + (if IsSet(p.flags, 4) then 4 else 0) + (if IsSet(p.flags, 2) then 2 else 0) + if IsSet(p.flags, 1) then 1 else 0
    ensures IsTruncated(p) <==> IsSet(p.flags, 0x0200)
  {
    hide IsSet;
    var n := p.flags;
    LowBit(n);
    SecondBit(n);
    ThirdBit(n);
    FourthBit(n);
    TcBit(n);
    Nibble(n);
  }

  lemma Nibble(n: nat)
    ensures n % 16 == n / 8 % 2 * 8 + n / 4 % 2 * 4 + n / 2 % 2 * 2 + n % 2
  {
    assert n % 16 == n / 8 % 2 * 8 + n % 8;
    assert n % 8 == n / 4 % 2 * 4 + n % 4;
    assert n % 4 == n / 2 % 2 * 2 + n % 2;
  }

  lemma LowBit(n: nat)
    requires n < 0x10000
    ensures n % 2 == 1 <==> IsSet(n, 1)
  {
    assert (n as bv16 % 2 == 1) <==> n as bv16 & 1 != 0;
  }

  lemma SecondBit(n: nat)
    requires n < 0x10000
    ensures n / 2 % 2 == 1 <==> IsSet(n, 2)
  {
    assert (n as bv16 / 2 % 2 == 1) <==> n as bv16 & 2 != 0;
  }

  lemma ThirdBit(n: nat)
    requires n < 0x10000
    ensures n / 4 % 2 == 1 <==> IsSet(n, 4)
  {
    assert (n as bv16 / 4 % 2 == 1) <==> n as bv16 & 4 != 0;
  }

  lemma FourthBit(n: nat)
    requires n < 0x10000
    ensures n / 8 % 2 == 1 <==> IsSet(n, 8)
  {
    assert (n as bv16 / 8 % 2 == 1) <==> n as bv16 & 8 != 0;
  }

  lemma TcBit(n: nat)
    requires n < 0x10000
    ensures n / 0x200 % 2 == 1 <==> IsSet(n, 0x0200)
  {
    assert (n as bv16 / 0x200 % 2 == 1) <==> n as bv16 & 0x0200 != 0;
  }

  predicate Hits(c: Cache.Cache, key: Key, now: nat) { Cache.InMemory(c) && Cache.Fresh(c, key, now) }

  // Truncated answers are not stored, and time-outs have none.
  predicate Stores(s: System, q: Ref) { q in s.answers && q < |s.queries.net.nodes| && !IsTruncated(s.answers[q]) }

  function QueryEvent(s: System, e: Event): Q.Event {
    match e
    case Ask(key, cb, sent, now) =>
      if Hits(s.cache, key, now) then Q.StartHit(cb, RcodeOf(s.cache.memory[s.cache.table[key]].pkt)) else Q.Start(key, cb, sent)
    case Arrive(id, pkt) => Q.Response(id, RcodeOf(pkt))
    case Other(e) => e
    case Finish(q, _) => Q.Finish(q)
    case TellCached(req) => Q.CallCached(req)
    case LetGo(_) => Q.Idle
    case Add(_, _, _, _) => Q.Idle
  }

  function CacheEvent(s: System, e: Event): Cache.Event {
    match e
    case Ask(key, _, _, now) => Cache.DoLookup(key, now)
    case Finish(q, now) =>
      if Stores(s, q) then Cache.DoStore(s.queries.net.nodes[q].key, RcodeOf(s.answers[q]) == 0, true, s.answers[q], now)
      else Cache.DoNothing
    case LetGo(req) => if req in s.readers then Cache.DoEndRead(s.readers[req]) else Cache.DoNothing
    case Add(key, setExpiry, pkt, now) => Cache.DoStore(key, true, setExpiry, pkt, now)
    case _ => Cache.DoNothing
  }

  predicate Enabled(s: System, e: Event) {
    && Q.Enabled(s.queries, QueryEvent(s, e)) && !Q.LapsAt(s.queries, QueryEvent(s, e)) && Cache.Enabled(s.cache, CacheEvent(s, e))
    && (e.LetGo? ==> e.req in s.readers && e.req !in s.queries.account.reading)
    && (e.Other? ==> e.e.Cancel? || e.e.Expire? || e.e.Call?)
  }

  function Answers(s: System, e: Event): map<Ref, Packet> {
    match e
    case Arrive(id, pkt) => if id in s.queries.net.byId then s.answers[s.queries.net.byId[id] := pkt] else s.answers
    case Finish(q, _) => s.answers - {q}
    case _ => s.answers
  }

  function Readers(s: System, e: Event): map<Req, Cache.Reader> {
    match e
    case Ask(key, _, _, now) => if Hits(s.cache, key, now) then s.readers[s.queries.account.accepted := s.cache.nextReader] else s.readers
    case LetGo(req) => s.readers - {req}
    case _ => s.readers
  }

  function Step(s: System, e: Event, qretr: nat, maxTtl: nat): System
    requires Enabled(s, e)
  {
    System(Q.Step(s.queries, QueryEvent(s, e), qretr), Cache.Step(s.cache, CacheEvent(s, e), maxTtl), Answers(s, e), Readers(s, e))
  }

  ghost predicate StepAt(states: seq<System>, es: seq<Event>, qretr: nat, maxTtl: nat, i: nat) {
    i < |es| && i + 1 < |states| && Enabled(states[i], es[i]) && states[i + 1] == Step(states[i], es[i], qretr, maxTtl)
  }

  ghost predicate IsRun(states: seq<System>, es: seq<Event>, qretr: nat, maxTtl: nat) {
    |states| == |es| + 1 && states[0] == Unused && forall i: nat :: i < |es| ==> StepAt(states, es, qretr, maxTtl, i)
  }

  // ---------------------------------------------------------------- both halves are runs

  function Queries(states: seq<System>): seq<Q.State> { seq(|states|, i requires 0 <= i < |states| => states[i].queries) }

  function Caches(states: seq<System>): seq<Cache.Cache> { seq(|states|, i requires 0 <= i < |states| => states[i].cache) }

  function QueryEvents(states: seq<System>, es: seq<Event>): seq<Q.Event>
    requires |es| <= |states|
  {
    seq(|es|, i requires 0 <= i < |es| => QueryEvent(states[i], es[i]))
  }

  function CacheEvents(states: seq<System>, es: seq<Event>): seq<Cache.Event>
    requires |es| <= |states|
  {
    seq(|es|, i requires 0 <= i < |es| => CacheEvent(states[i], es[i]))
  }

  lemma HalvesAreRuns(states: seq<System>, es: seq<Event>, qretr: nat, maxTtl: nat)
    requires IsRun(states, es, qretr, maxTtl)
    ensures Q.IsRun(Queries(states), QueryEvents(states, es), qretr) && Queries(states)[0] == Q.Initial
    ensures Cache.IsRun(Caches(states), CacheEvents(states, es), maxTtl)
  {
    hide Q.Step, Q.Enabled, Q.LapsAt, Cache.Step, Cache.Enabled, QueryEvent, CacheEvent, Answers, Readers;
    forall i: nat | i < |es|
      ensures Q.StepAt(Queries(states), QueryEvents(states, es), qretr, i) && Cache.StepAt(Caches(states), CacheEvents(states, es), maxTtl, i)
    {
      assert StepAt(states, es, qretr, maxTtl, i);
    }
  }

  lemma BothOk(states: seq<System>, es: seq<Event>, qretr: nat, maxTtl: nat, i: nat)
    requires IsRun(states, es, qretr, maxTtl) && i <= |es|
    ensures Q.Inv(states[i].queries, qretr) && Cache.Valid(states[i].cache)
  {
    assert |states| == |es| + 1;
    hide IsRun, Q.IsRun, Cache.IsRun, Q.Inv, Cache.Valid;
    HalvesAreRuns(states, es, qretr, maxTtl);
    Q.StartedInv(Queries(states), QueryEvents(states, es), qretr, i);
    Cache.RunValid(Caches(states), CacheEvents(states, es), maxTtl, i);
  }

  // A step of a run.
  lemma TakesStep(states: seq<System>, es: seq<Event>, qretr: nat, maxTtl: nat, i: nat)
    requires IsRun(states, es, qretr, maxTtl) && i < |es|
    ensures i + 1 < |states| && Enabled(states[i], es[i]) && states[i + 1] == Step(states[i], es[i], qretr, maxTtl)
    ensures Q.Inv(states[i].queries, qretr) && Cache.Valid(states[i].cache)
  {
    hide Enabled, Step, Q.Inv, Cache.Valid;
    assert StepAt(states, es, qretr, maxTtl, i);
    BothOk(states, es, qretr, maxTtl, i);
  }

  // ---------------------------------------------------------------- what ties them together

  // The flights that were answered are those with a packet, whose status they tell.
  ghost predicate Match(flights: map<Ref, Flight>, answers: map<Ref, Packet>) {
    && (forall q <- answers :: q in flights && flights[q].status == Answered(RcodeOf(answers[q])))
    && (forall q <- flights :: flights[q].status.Answered? ==> q in answers)
  }

  ghost predicate AnswersOk(s: System) { Match(s.queries.net.flights, s.answers) }

  // What a step does to the flights.
  lemma FlightsStep(s: Q.State, e: Q.Event, qretr: nat)
    requires Q.Inv(s, qretr) && Q.Enabled(s, e)
    ensures var f, f' := s.net.flights, Q.Step(s, e, qretr).net.flights;
      match e
      case Response(id, rcode) =>
        if id in s.net.byId then s.net.byId[id] !in f && f' == f[s.net.byId[id] := Flight(0, Answered(rcode))] else f' == f
      case Expire(q, _) => q !in f && (f' == f || f' == f[q := Flight(0, TimedOut)])
      case Call(q) => q in f && f' == f[q := f[q].(next := f[q].next + 1)]
      case Finish(q) => f' == f - {q}
      case _ => f' == f
  {
    hide Q.Inv;
    match e
    case Response(id, _) => if id in s.net.byId { FoundPending(s, id, qretr); }
    case Expire(q, _) => NotFlying(s, q, qretr);
    case _ =>
  }

  lemma NotFlying(s: Q.State, q: Ref, qretr: nat)
    requires Q.Inv(s, qretr) && Timeouts.IsPendingIn(s.net, q)
    ensures q !in s.net.flights
  {}

  lemma MatchAnswer(f: map<Ref, Flight>, answers: map<Ref, Packet>, q: Ref, pkt: Packet)
    requires Match(f, answers)
    ensures Match(f[q := Flight(0, Answered(RcodeOf(pkt)))], answers[q := pkt])
  {}

  lemma MatchOther(f: map<Ref, Flight>, answers: map<Ref, Packet>, q: Ref, flight: Flight)
    requires Match(f, answers) && if q in f then flight.status == f[q].status else !flight.status.Answered?
    ensures Match(f[q := flight], answers)
  {}

  lemma MatchDone(f: map<Ref, Flight>, answers: map<Ref, Packet>, q: Ref)
    requires Match(f, answers)
    ensures Match(f - {q}, answers - {q})
  {}

  lemma StepAnswers(s: System, e: Event, qretr: nat, maxTtl: nat)
    requires Q.Inv(s.queries, qretr) && Enabled(s, e) && AnswersOk(s)
    ensures AnswersOk(Step(s, e, qretr, maxTtl))
  {
    hide Q.Inv, Q.Step, Q.Enabled, Q.LapsAt, Cache.Step, Cache.Enabled, CacheEvent, Hits, Readers, Match, RcodeOf;
    FlightsStep(s.queries, QueryEvent(s, e), qretr);
    var net, f := s.queries.net, s.queries.net.flights;
    match e
    case Arrive(id, pkt) => if id in net.byId { MatchAnswer(f, s.answers, net.byId[id], pkt); }
    case Finish(q, _) => MatchDone(f, s.answers, q);
    case Other(Expire(q, _)) => MatchOther(f, s.answers, q, Flight(0, TimedOut));
    case Other(Call(q)) => MatchOther(f, s.answers, q, f[q].(next := f[q].next + 1));
    case _ =>
  }

  // Each request that hit has a packet of its own in the cache, and what it will be told is the status of
  // that packet.
  ghost predicate ReadersOk(s: System) {
    Assigned(s.queries.account.accepted, s.queries.account.reading, s.cache.readers, s.readers)
  }

  ghost predicate Assigned(accepted: nat, reading: map<Req, Status>, held: map<Cache.Reader, Cache.Held>, readers: map<Req, Cache.Reader>) {
    && (forall req <- readers :: req < accepted && readers[req] in held)
    && (forall r1 <- readers, r2 <- readers :: r1 != r2 ==> readers[r1] != readers[r2])
    && (forall req <- reading :: req in readers && reading[req] == FromCache(RcodeOf(held[readers[req]].pkt)))
  }

  lemma HitAssigned(accepted: nat, reading: map<Req, Status>, held: map<Cache.Reader, Cache.Held>, readers: map<Req, Cache.Reader>,
                    n: Cache.Reader, held': map<Cache.Reader, Cache.Held>, cb: bool)
    requires Assigned(accepted, reading, held, readers) && n !in held && n in held'
    requires forall r <- held :: r in held' && held'[r] == held[r]
    ensures Assigned(accepted + 1, if cb then reading[accepted := FromCache(RcodeOf(held'[n].pkt))] else reading, held', readers[accepted := n])
  {}

  lemma KeepAssigned(accepted: nat, reading: map<Req, Status>, held: map<Cache.Reader, Cache.Held>, readers: map<Req, Cache.Reader>,
                     accepted': nat, reading': map<Req, Status>, held': map<Cache.Reader, Cache.Held>)
    requires Assigned(accepted, reading, held, readers) && accepted <= accepted'
    requires forall req <- reading' :: req in reading && reading'[req] == reading[req]
    requires forall r <- held :: r in held' && held'[r] == held[r]
    ensures Assigned(accepted', reading', held', readers)
  {}

  lemma DropAssigned(accepted: nat, reading: map<Req, Status>, held: map<Cache.Reader, Cache.Held>, readers: map<Req, Cache.Reader>,
                     req: Req, held': map<Cache.Reader, Cache.Held>)
    requires Assigned(accepted, reading, held, readers) && req in readers && req !in reading
    requires forall r <- held :: r != readers[req] ==> r in held' && held'[r] == held[r]
    ensures Assigned(accepted, reading, held', readers - {req})
  {}

  // The cache keeps what its readers hold, and a hit adds one.
  lemma CacheReaders(c: Cache.Cache, e: Cache.Event, maxTtl: nat)
    requires Cache.Valid(c) && Cache.Enabled(c, e)
    ensures forall r <- c.readers :: e != Cache.DoEndRead(r) ==> r in Cache.Step(c, e, maxTtl).readers && Cache.Step(c, e, maxTtl).readers[r] == c.readers[r]
    ensures c.nextReader !in c.readers
    ensures e.DoLookup? && Hits(c, e.key, e.now) ==>
      var c' := Cache.Step(c, e, maxTtl);
      c.nextReader in c'.readers && c'.readers[c.nextReader].pkt == c.memory[c.table[e.key]].pkt
  {
    hide Cache.Counted, Cache.Keyed;
    Cache.StepValid(c, e, maxTtl);
  }

  // What is being read changes by a hit and by its callback only.
  lemma ReadingStep(s: Q.State, e: Q.Event, qretr: nat)
    requires Q.Enabled(s, e)
    ensures var a, a' := s.account, Q.Step(s, e, qretr).account;
      && a.accepted <= a'.accepted
      && a'.reading == (if e.StartHit? && e.cb then a.reading[a.accepted := FromCache(e.rcode)]
                        else if e.CallCached? then a.reading - {e.req}
                        else a.reading)
      && (e.StartHit? ==> a'.accepted == a.accepted + 1)
      && (e.Idle? ==> a'.accepted == a.accepted)
  {}

  lemma StepReaders(s: System, e: Event, qretr: nat, maxTtl: nat)
    requires Q.Inv(s.queries, qretr) && Cache.Valid(s.cache) && Enabled(s, e) && ReadersOk(s)
    ensures ReadersOk(Step(s, e, qretr, maxTtl))
  {
    hide Q.Inv, Cache.Valid, Q.Step, Q.Enabled, Q.LapsAt, Cache.Step, Cache.Enabled, Hits, Stores, Assigned, RcodeOf, Answers;
    CacheReaders(s.cache, CacheEvent(s, e), maxTtl);
    ReadingStep(s.queries, QueryEvent(s, e), qretr);
    var a, held, s' := s.queries.account, s.cache.readers, Step(s, e, qretr, maxTtl);
    if e.Ask? && Hits(s.cache, e.key, e.now) {
      HitAssigned(a.accepted, a.reading, held, s.readers, s.cache.nextReader, s'.cache.readers, e.cb);
    } else if e.LetGo? {
      DropAssigned(a.accepted, a.reading, held, s.readers, e.req, s'.cache.readers);
    } else {
      KeepAssigned(a.accepted, a.reading, held, s.readers, s'.queries.account.accepted, s'.queries.account.reading, s'.cache.readers);
    }
  }

  ghost predicate Tied(s: System) { AnswersOk(s) && ReadersOk(s) }

  lemma BeginsTied(states: seq<System>, es: seq<Event>, qretr: nat, maxTtl: nat)
    requires IsRun(states, es, qretr, maxTtl)
    ensures states[0] == Unused && Tied(states[0])
  {
    hide StepAt;
  }

  lemma {:induction false} RunTied(states: seq<System>, es: seq<Event>, qretr: nat, maxTtl: nat, i: nat)
    requires IsRun(states, es, qretr, maxTtl) && i <= |es|
    ensures Tied(states[i])
  {
    hide IsRun, Enabled, Step, AnswersOk, ReadersOk, Q.Inv, Cache.Valid;
    if i == 0 {
      BeginsTied(states, es, qretr, maxTtl);
    } else {
      TakesStep(states, es, qretr, maxTtl, i - 1);
      RunTied(states, es, qretr, maxTtl, i - 1);
      StepAnswers(states[i - 1], es[i - 1], qretr, maxTtl);
      StepReaders(states[i - 1], es[i - 1], qretr, maxTtl);
    }
  }

  // A callback made from the cache is handed a packet that is in memory, and told the status of that packet.
  lemma CachedCallbackIsRight(states: seq<System>, es: seq<Event>, qretr: nat, maxTtl: nat, i: nat, req: Req)
    requires IsRun(states, es, qretr, maxTtl) && i <= |es| && req in states[i].queries.account.reading
    ensures var s := states[i];
      && req in s.readers && s.readers[req] in s.cache.readers
      && s.cache.readers[s.readers[req]].entry in s.cache.memory
      && s.queries.account.reading[req] == FromCache(RcodeOf(s.cache.memory[s.cache.readers[s.readers[req]].entry].pkt))
  {
    RunTied(states, es, qretr, maxTtl, i);
    BothOk(states, es, qretr, maxTtl, i);
  }

  // Time-outs and truncated answers leave the cache alone.
  lemma NotStored(states: seq<System>, es: seq<Event>, qretr: nat, maxTtl: nat, i: nat, q: Ref, now: nat)
    requires IsRun(states, es, qretr, maxTtl) && i < |es| && es[i] == Finish(q, now)
    ensures q in states[i].queries.net.flights
    ensures states[i].queries.net.flights[q].status == TimedOut || (q in states[i].answers && IsSetIn(states[i].answers[q], 0x0200)) ==>
      states[i + 1].cache == states[i].cache
  {
    RunTied(states, es, qretr, maxTtl, i);
    TakesStep(states, es, qretr, maxTtl, i);
    if q in states[i].answers && states[i].answers[q].flags < 0x10000 { FlagBits(states[i].answers[q]); }
    hide IsRun, Q.Inv, Cache.Valid, IsSet;
  }

  predicate IsSetIn(p: Packet, mask: bv16) { p.flags < 0x10000 && IsSet(p.flags, mask) }

  // ---------------------------------------------------------------- later requests

  // The last packet stored under key before step i was stored at step j, and is kept until after now.
  ghost predicate Current(states: seq<System>, es: seq<Event>, maxTtl: nat, i: nat, key: Key, now: nat, j: nat)
    requires |es| <= |states|
  {
    Cache.IsCurrent(CacheEvents(states, es), maxTtl, i, key, now, j)
  }

  // A request is answered from the cache, with the status of the last packet stored under its key, if and
  // only if there is such a packet whose time has not run out.
  lemma ServedExactly(states: seq<System>, es: seq<Event>, qretr: nat, maxTtl: nat, i: nat, key: Key, cb: bool, sent: bool, now: nat)
    requires IsRun(states, es, qretr, maxTtl) && i < |es| && es[i] == Ask(key, cb, sent, now) && Cache.InOrder(CacheEvents(states, es))
    ensures QueryEvent(states[i], es[i]).StartHit? <==> exists j: nat :: Current(states, es, maxTtl, i, key, now, j)
    ensures forall j: nat :: Current(states, es, maxTtl, i, key, now, j) ==>
      j < |es| && CacheEvents(states, es)[j].DoStore? && QueryEvent(states[i], es[i]) == Q.StartHit(cb, RcodeOf(CacheEvents(states, es)[j].pkt))
  {
    HalvesAreRuns(states, es, qretr, maxTtl);
    assert |states| == |es| + 1;
    var cs, ces := Caches(states), CacheEvents(states, es);
    assert ces[i] == Cache.DoLookup(key, now) && cs[i] == states[i].cache && |ces| == |es|;
    hide IsRun, Q.IsRun, Cache.IsRun, Cache.InOrder, Cache.IsCurrent, Cache.Fresh, CacheEvents, Caches;
    Cache.HitExactly(cs, ces, maxTtl, i, key, now);
    if Hits(states[i].cache, key, now) {
      var j: nat :| Cache.IsCurrent(ces, maxTtl, i, key, now, j);
      assert Current(states, es, maxTtl, i, key, now, j);
    }
    forall j: nat | Current(states, es, maxTtl, i, key, now, j)
      ensures j < |es| && ces[j].DoStore? && QueryEvent(states[i], es[i]) == Q.StartHit(cb, RcodeOf(ces[j].pkt))
    {
      assert Cache.IsCurrent(ces, maxTtl, i, key, now, j);
      HitStatus(cs, ces, maxTtl, i, key, now, j);
    }
  }

  // The entry that a look-up finds has the status of the last packet stored.
  lemma HitStatus(cs: seq<Cache.Cache>, ces: seq<Cache.Event>, maxTtl: nat, i: nat, key: Key, now: nat, j: nat)
    requires Cache.IsRun(cs, ces, maxTtl) && i <= |ces| && Cache.IsCurrent(ces, maxTtl, i, key, now, j) && Cache.InMemory(cs[i]) && Cache.Fresh(cs[i], key, now)
    ensures j < |ces| && ces[j].DoStore?
    ensures RcodeOf(cs[i].memory[cs[i].table[key]].pkt) == RcodeOf(ces[j].pkt)
  {
    hide Cache.IsRun, DupForCache, Cache.Ttl;
    var k := Cache.ContentsAreLastStore(cs, ces, maxTtl, i, key);
    assert k == j;
    DupKeepsPacket(ces[j].pkt);
  }

  // ---------------------------------------------------------------- one status for all

  // Query q has been answered with pkt, and its callbacks are being made.
  ghost predicate BeingTold(s: System, q: Ref, key: Key, pkt: Packet) {
    var net := s.queries.net;
    Shape(net) && q < |net.nodes| && net.place[q] == Notifying && net.nodes[q].key == key && q in s.answers && s.answers[q] == pkt
  }

  // What a step on the tables leaves of a query whose callbacks are being made.
  ghost predicate Stays(s: Net, s': Net, q: Ref)
    requires Shape(s) && q < |s.nodes|
  {
    Shape(s') && q < |s'.nodes| && s'.place[q] == s.place[q] && s'.nodes[q].key == s.nodes[q].key
  }

  lemma StartStays(s: Net, key: Key, req: Req, cb: bool, sent: bool, q: Ref)
    requires Shape(s) && (s.free != [] ==> s.place[s.free[0]] == Free) && (key in s.byRes ==> s.byRes[key] < |s.nodes|)
    requires q < |s.nodes| && s.place[q] == Notifying
    ensures Stays(s, StartQuery(s, key, req, cb, sent), q)
  {
    Timeouts.AllocKeeps(s, if key in s.byRes then ChildNode(req, cb) else QueryNode(s, req, cb, key, sent), q);
    hide Alloc, AllocRef;
  }

  lemma FinishStays(s: Net, c: Ref, q: Ref)
    requires Shape(s) && FlightsOk(s) && ChildrenOk(s) && AllCalled(s, c) && q < |s.nodes| && s.place[q] == Notifying && q != c
    requires Shape(Recycle(s, c))
    ensures Stays(s, Recycle(s, c), q)
  {
    assert q !in s.nodes[c].children;
  }

  lemma QueryStays(s: Q.State, e: Q.Event, qretr: nat, q: Ref)
    requires Q.Inv(s, qretr) && Q.Enabled(s, e) && !Q.LapsAt(s, e) && q < |s.net.nodes| && s.net.place[q] == Notifying && e != Q.Finish(q)
    ensures Stays(s.net, Q.Step(s, e, qretr).net, q)
  {
    hide TablesOk, FlightsOk, ChildrenOk, FreeOk, TimersOk, Q.AccountOk, Q.Settled, Q.Waits;
    Q.StepNetOk(s, e, qretr);
    match e
    case Start(key, cb, sent) =>
      hide StartQuery, Stays;
      Q.StartFacts(s, key, qretr);
      StartStays(s.net, key, s.account.accepted, cb, sent, q);
    case Response(id, _) => if id in s.net.byId { FoundPending(s, id, qretr); }
    case Finish(c) =>
      hide Recycle, Stays;
      FinishStays(s.net, c, q);
    case _ =>
  }

  lemma StepTells(s: System, e: Event, qretr: nat, maxTtl: nat, q: Ref, key: Key, pkt: Packet)
    requires Q.Inv(s.queries, qretr) && Enabled(s, e) && BeingTold(s, q, key, pkt) && !(e.Finish? && e.q == q)
    ensures BeingTold(Step(s, e, qretr, maxTtl), q, key, pkt)
  {
    hide Q.Inv, Q.Step, Q.Enabled, Q.LapsAt, Cache.Step, Cache.Enabled, CacheEvent, Readers, RcodeOf, Hits;
    assert QueryEvent(s, e) != Q.Finish(q);
    hide QueryEvent;
    if e.Arrive? && e.id in s.queries.net.byId { FoundPending(s.queries, e.id, qretr); }
    QueryStays(s.queries, QueryEvent(s, e), qretr, q);
  }

  predicate Finishes(e: Event, q: Ref) { e.Finish? && e.q == q }

  lemma {:induction false} RunTells(states: seq<System>, es: seq<Event>, qretr: nat, maxTtl: nat, i: nat, j: nat, q: Ref, key: Key, pkt: Packet)
    requires IsRun(states, es, qretr, maxTtl) && i <= j <= |es| && BeingTold(states[i], q, key, pkt)
    requires forall k :: i <= k < j ==> !Finishes(es[k], q)
    ensures BeingTold(states[j], q, key, pkt)
    decreases j
  {
    hide IsRun, Enabled, Step, BeingTold, Q.Inv, Cache.Valid;
    if i < j {
      TakesStep(states, es, qretr, maxTtl, j - 1);
      RunTells(states, es, qretr, maxTtl, i, j - 1, q, key, pkt);
      assert !Finishes(es[j - 1], q);
      StepTells(states[j - 1], es[j - 1], qretr, maxTtl, q, key, pkt);
    }
  }

  lemma ArriveTells(states: seq<System>, es: seq<Event>, qretr: nat, maxTtl: nat, d: nat, id: nat, pkt: Packet)
    requires IsRun(states, es, qretr, maxTtl) && d < |es| && es[d] == Arrive(id, pkt) && id in states[d].queries.net.byId
    ensures var q, net := states[d].queries.net.byId[id], states[d].queries.net;
      && Shape(net) && q < |net.nodes| && BeingTold(states[d + 1], q, net.nodes[q].key, pkt)
      && Timeouts.Dequeued(states[d + 1].queries.net, q, Answered(RcodeOf(pkt)))
      && Q.Waits(states[d + 1].queries.net) == Q.Waits(net) && states[d + 1].queries.net.nodes[q].children == net.nodes[q].children
  {
    hide IsRun, Q.Waits, RcodeOf, Cache.Step, Cache.Enabled, Cache.Valid, Q.Inv, CacheEvent, Readers, Dequeue, Hits;
    TakesStep(states, es, qretr, maxTtl, d);
    FoundPending(states[d].queries, id, qretr);
    var net := states[d].queries.net;
    AnswerTells(net, net.byId[id], Answered(RcodeOf(pkt)));
  }

  lemma FoundPending(s: Q.State, id: nat, qretr: nat)
    requires Q.Inv(s, qretr) && id in s.net.byId
    ensures Shape(s.net) && FlightsOk(s.net) && Timeouts.IsPendingIn(s.net, s.net.byId[id]) && s.net.byId[id] !in s.net.flights
  {
    hide ChildrenOk, FreeOk, TimersOk, Q.AccountOk, Q.Settled, Q.Waits;
  }

  lemma AnswerTells(s: Net, q: Ref, status: Status)
    requires Shape(s) && FlightsOk(s) && Timeouts.IsPendingIn(s, q)
    ensures var s' := Dequeue(s, q, status);
      && Shape(s') && q < |s'.nodes| && s'.place[q] == Notifying && Timeouts.Dequeued(s', q, status) && Q.Waits(s') == Q.Waits(s)
      && s'.nodes[q].key == s.nodes[q].key && s'.nodes[q].children == s.nodes[q].children
  {
    hide Q.Waits;
    Q.DequeueWaits(s, q, status);
    hide FlightsOk;
  }

  // A query is answered at step d with a packet that is not truncated, and is finished at step j. Then whoever
  // waited at it and was not cancelled has been told the status of the packet; and whoever asks for the same
  // resource at step i, before that packet runs out and before another is stored, is told the same status.
  lemma OneStatusForAll(states: seq<System>, es: seq<Event>, qretr: nat, maxTtl: nat, d: nat, j: nat, i: nat,
                        id: nat, pkt: Packet, q: Ref, r: Ref, cb: bool, sent: bool, now: nat)
    requires IsRun(states, es, qretr, maxTtl) && Cache.InOrder(CacheEvents(states, es)) && d < j < i < |es|
    requires es[d] == Arrive(id, pkt) && !IsTruncated(pkt) && id in states[d].queries.net.byId && states[d].queries.net.byId[id] == q
    requires q < |states[d].queries.net.nodes| && (r == q || r in states[d].queries.net.nodes[q].children)
    requires Shape(states[d].queries.net) && r in Q.Waits(states[d].queries.net)
    requires Finishes(es[j], q) && forall k :: d < k < j ==> !Finishes(es[k], q) && !Timeouts.Cancels(QueryEvent(states[k], es[k]), r)
    requires es[i] == Ask(states[d].queries.net.nodes[q].key, cb, sent, now)
    requires Cache.LastStore(CacheEvents(states, es), i, es[i].key, j) && Cache.TtlsFit(pkt)
    requires now < es[j].now + 1000 * maxTtl
    requires if RcodeOf(pkt) == 0 && pkt.ans != [] then forall k :: 0 <= k < |pkt.ans| ==> now < es[j].now + 1000 * pkt.ans[k].ttl
             else now < es[j].now + 60000
    ensures Delivery(Q.Waits(states[d].queries.net)[r], Answered(RcodeOf(pkt))) in states[j].queries.account.log
    ensures QueryEvent(states[i], es[i]) == Q.StartHit(cb, RcodeOf(pkt))
  {
    assert |states| == |es| + 1;
    hide IsRun, Current, Q.Waits, Cache.InOrder, RcodeOf, IsTruncated, CacheEvents;
    ArriveTells(states, es, qretr, maxTtl, d, id, pkt);
    RunTells(states, es, qretr, maxTtl, d + 1, j, q, es[i].key, pkt);
    StoredPacket(states, es, j, q, es[i].key, pkt);
    StillCurrent(states, es, maxTtl, i, es[i].key, cb, sent, now, j);
    ServedExactly(states, es, qretr, maxTtl, i, es[i].key, cb, sent, now);
    WaitersAreTold(states, es, qretr, maxTtl, d + 1, j, q, Answered(RcodeOf(pkt)), r);
  }

  // The last packet stored is current while it is in time.
  lemma StillCurrent(states: seq<System>, es: seq<Event>, maxTtl: nat, i: nat, key: Key, cb: bool, sent: bool, now: nat, j: nat)
    requires i < |es| <= |states| && es[i] == Ask(key, cb, sent, now) && Cache.InOrder(CacheEvents(states, es))
    requires var ces := CacheEvents(states, es);
      Cache.LastStore(ces, i, key, j) && ces[j].setExpiry && Cache.TtlsFit(ces[j].pkt)
    ensures Current(states, es, maxTtl, i, key, now, j) <==> Cache.InTime(CacheEvents(states, es)[j], maxTtl, now)
  {
    var ces := CacheEvents(states, es);
    assert ces[i] == Cache.DoLookup(key, now);
    hide CacheEvents, Cache.InOrder, Cache.InTime, Cache.IsCurrent;
    Cache.CurrentInTime(ces, maxTtl, i, key, now, j);
  }

  lemma StoredPacket(states: seq<System>, es: seq<Event>, j: nat, q: Ref, key: Key, pkt: Packet)
    requires j < |es| <= |states| && Finishes(es[j], q) && BeingTold(states[j], q, key, pkt) && !IsTruncated(pkt)
    ensures CacheEvents(states, es)[j] == Cache.DoStore(key, RcodeOf(pkt) == 0, true, pkt, es[j].now)
  {}

  lemma WaitersAreTold(states: seq<System>, es: seq<Event>, qretr: nat, maxTtl: nat, i: nat, j: nat, q: Ref, status: Status, r: Ref)
    requires IsRun(states, es, qretr, maxTtl) && i <= j < |es| && Shape(states[i].queries.net)
    requires Timeouts.Dequeued(states[i].queries.net, q, status)
    requires (r == q || r in states[i].queries.net.nodes[q].children) && r in Q.Waits(states[i].queries.net)
    requires Finishes(es[j], q) && forall k :: i <= k < j ==> !Finishes(es[k], q) && !Timeouts.Cancels(QueryEvent(states[k], es[k]), r)
    ensures Delivery(Q.Waits(states[i].queries.net)[r], status) in states[j].queries.account.log
  {
    HalvesAreRuns(states, es, qretr, maxTtl);
    var qs, qes := Queries(states), QueryEvents(states, es);
    forall k | i <= k < j ensures qes[k] != Q.Finish(q) && !Timeouts.Cancels(qes[k], r) { NotFinish(states, es, qretr, maxTtl, k, q); }
    hide IsRun, Q.Waits, Q.IsRun, Cache.IsRun;
    Timeouts.FlightDelivers(qs, qes, qretr, i, j, q, status, r);
  }

  lemma NotFinish(states: seq<System>, es: seq<Event>, qretr: nat, maxTtl: nat, k: nat, q: Ref)
    requires IsRun(states, es, qretr, maxTtl) && k < |es| && !Finishes(es[k], q)
    ensures QueryEvent(states[k], es[k]) != Q.Finish(q)
  {
    assert StepAt(states, es, qretr, maxTtl, k);
  }
}
