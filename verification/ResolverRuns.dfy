/** Requests and callbacks of the resolver: the account of what the application sees, the steps on both,
    and the invariant of every run. */
module ResolverRuns {
  import opened DnsTypes
  import opened ResolverNet

  // ---------------------------------------------------------------- requests and callbacks

  // What became of a request; bookkeeping for the proofs.
  datatype Fate = Waiting(at: Ref) | Reading | Delivered(index: nat) | Silent

  datatype Account = Account(accepted: nat, reading: map<Req, Status>, log: seq<Delivery>, silent: set<Req>, fate: seq<Fate>)

  const NoRequests := Account(0, map[], [], {}, [])

  // A request without a callback is accepted but never heard of again.
  function Accept(a: Account, cb: bool, at: Ref): Account {
    if cb then a.(accepted := a.accepted + 1, fate := a.fate + [Waiting(at)])
    else a.(accepted := a.accepted + 1, fate := a.fate + [Silent], silent := a.silent + {a.accepted})
  }

  function AcceptHit(a: Account, cb: bool, rcode: nat): Account {
    if cb then
      a.(accepted := a.accepted + 1, fate := a.fate + [Reading], reading := a.reading[a.accepted := FromCache(rcode)])
    else Accept(a, false, 0)
  }

  function Deliver(a: Account, q: Req, status: Status): Account
    requires q < |a.fate|
  {
    a.(log := a.log + [Delivery(q, status)], fate := a.fate[q := Delivered(|a.log|)])
  }

  function Silence(a: Account, q: Req): Account
    requires q < |a.fate|
  {
    a.(silent := a.silent + {q}, fate := a.fate[q := Silent])
  }

  predicate IsWaiting(s: Net, r: Ref)
    requires Shape(s)
  {
    r < |s.nodes| && s.place[r] != Free && s.nodes[r].cb && !Called(s, r)
  }

  // The nodes whose callback is still to come, with the request each holds.
  function Waits(s: Net): map<Ref, Req>
    requires Shape(s)
  {
    map r: Ref | r < |s.nodes| && IsWaiting(s, r) :: s.nodes[r].req
  }

  ghost predicate AccountOk(a: Account, w: map<Ref, Req>) {
    && |a.fate| == a.accepted
    && (forall r <- w :: w[r] < a.accepted && a.fate[w[r]] == Waiting(r))
    && (forall q: Req {:trigger a.fate[q]} :: q < a.accepted ==>
          match a.fate[q]
          case Waiting(r) => r in w && w[r] == q
          case Delivered(k) => k < |a.log| && a.log[k].req == q
          case Reading => q in a.reading
          case Silent => q in a.silent)
    && (forall k {:trigger a.log[k]} :: 0 <= k < |a.log| ==> a.log[k].req < a.accepted && a.fate[a.log[k].req] == Delivered(k))
    && (forall q <- a.reading :: q < a.accepted && a.fate[q] == Reading)
    && (forall q <- a.silent :: q < a.accepted && a.fate[q] == Silent)
  }

  lemma AcceptOk(a: Account, w: map<Ref, Req>, cb: bool, at: Ref)
    requires AccountOk(a, w) && at !in w
    ensures AccountOk(Accept(a, cb, at), if cb then w[at := a.accepted] else w)
  {}

  lemma AcceptHitOk(a: Account, w: map<Ref, Req>, cb: bool, rcode: nat)
    requires AccountOk(a, w)
    ensures AccountOk(AcceptHit(a, cb, rcode), w)
  {}

  lemma DeliverOk(a: Account, w: map<Ref, Req>, r: Ref, status: Status)
    requires AccountOk(a, w) && r in w
    ensures AccountOk(Deliver(a, w[r], status), w - {r})
  {}

  lemma DeliverHitOk(a: Account, w: map<Ref, Req>, q: Req)
    requires AccountOk(a, w) && q in a.reading
    ensures AccountOk(Deliver(a, q, a.reading[q]).(reading := a.reading - {q}), w)
  {}

  lemma SilenceOk(a: Account, w: map<Ref, Req>, r: Ref)
    requires AccountOk(a, w) && r in w
    ensures AccountOk(Silence(a, w[r]), w - {r})
  {}

  lemma AllocWaits(s: Net, n: Node)
    requires Shape(s) && (s.free != [] ==> s.place[s.free[0]] == Free)
    ensures AllocRef(s) !in Waits(s) && Shape(Alloc(s, n)) && AllocRef(s) < |Alloc(s, n).nodes|
    ensures Waits(Alloc(s, n)) == if n.cb then Waits(s)[AllocRef(s) := n.req] else Waits(s)
  {}

  lemma AttachWaits(s: Net, p: Ref, r: Ref)
    requires Shape(s) && p < |s.nodes| && r < |s.nodes| && s.place[p] == Pending && s.place[r] == Detached && p !in s.flights
    ensures Waits(Attach(s, p, r)) == Waits(s)
  {}

  lemma EnterWaits(s: Net, r: Ref)
    requires Shape(s) && r < |s.nodes| && s.place[r] == Detached
    ensures Waits(Enter(s, r)) == Waits(s)
  {}

  lemma ReleaseWaits(s: Net, r: Ref)
    requires Shape(s) && r < |s.nodes| && s.place[r] == Detached
    ensures Shape(Release(s, r)) && Waits(Release(s, r)) == Waits(s) - {r}
  {}

  lemma JoinWaits(s: Net, key: Key, req: Req, cb: bool, sent: bool)
    requires Shape(s) && (s.free != [] ==> s.place[s.free[0]] == Free)
    requires key in s.byRes && s.byRes[key] < |s.nodes| && s.place[s.byRes[key]] == Pending && s.byRes[key] !in s.flights
    ensures var s' := StartQuery(s, key, req, cb, sent);
      Shape(s') && AllocRef(s) !in Waits(s) && Waits(s') == if cb then Waits(s)[AllocRef(s) := req] else Waits(s)
  {
    AllocWaits(s, ChildNode(req, cb));
    AttachWaits(Alloc(s, ChildNode(req, cb)), s.byRes[key], AllocRef(s));
  }

  lemma SetIdWaits(s: Net, id: nat)
    requires Shape(s)
    ensures Waits(s.(lastId := id)) == Waits(s)
  {}

  lemma QueryWaits(s: Net, key: Key, req: Req, cb: bool, sent: bool)
    requires Shape(s) && (s.free != [] ==> s.place[s.free[0]] == Free) && key !in s.byRes
    ensures var s' := StartQuery(s, key, req, cb, sent);
      Shape(s') && AllocRef(s) !in Waits(s) && Waits(s') == if cb && sent then Waits(s)[AllocRef(s) := req] else Waits(s)
  {
    hide Waits;
    var n, r := QueryNode(s, req, cb, key, sent), AllocRef(s);
    AllocWaits(s, n);
    SetIdWaits(Alloc(s, n), NextId(s.lastId));
    var s1 := Alloc(s, n).(lastId := NextId(s.lastId));
    if sent {
      EnterWaits(s1, r);
    } else {
      ReleaseWaits(s1, r);
    }
  }

  lemma CancelWaits(s: Net, q: Ref)
    requires Shape(s) && q < |s.nodes|
    ensures Waits(CancelNode(s, q)) == Waits(s) - {q}
    ensures Outstanding(s, q) && s.nodes[q].cb ==> q in Waits(s)
  {}

  lemma DequeueWaits(s: Net, q: Ref, status: Status)
    requires Shape(s) && FlightsOk(s) && q < |s.nodes| && s.place[q] == Pending
    ensures Waits(Dequeue(s, q, status)) == Waits(s)
  {
    var s' := Dequeue(s, q, status);
    assert forall r: Ref :: r < |s.nodes| ==> (IsWaiting(s', r) <==> IsWaiting(s, r)) && s'.nodes[r].req == s.nodes[r].req;
    hide IsWaiting, FlightsOk, Dequeue;
  }

  lemma TimerWaits(s: Net, q: Ref, sent: bool, qretr: nat)
    requires Shape(s) && FlightsOk(s) && q < |s.nodes| && s.place[q] == Pending
    ensures Shape(TimerFires(s, q, sent, qretr)) && Waits(TimerFires(s, q, sent, qretr)) == Waits(s)
  {
    if s.nodes[q].transmitCnt < qretr && sent {
      var s' := TimerFires(s, q, sent, qretr);
      assert forall r: Ref :: r < |s.nodes| ==> (IsWaiting(s', r) <==> IsWaiting(s, r)) && s'.nodes[r].req == s.nodes[r].req;
      hide IsWaiting, FlightsOk;
    } else {
      hide Waits, FlightsOk;
      DequeueWaits(s, q, TimedOut);
    }
  }

  lemma CallWaits(s: Net, q: Ref)
    requires Shape(s) && FlightsOk(s) && ChildrenOk(s) && CallsLeft(s, q)
    ensures Callee(s, q) < |s.nodes| && (Callee(s, q) in Waits(s) <==> s.nodes[Callee(s, q)].cb)
    ensures Waits(CallNext(s, q)) == Waits(s) - {Callee(s, q)}
  {
    var c := Callee(s, q);
    CalleePlace(s, q);
    forall r: Ref | r < |s.nodes| ensures IsWaiting(CallNext(s, q), r) <==> IsWaiting(s, r) && r != c {
      CallWaiting(s, q, r);
    }
    assert IsWaiting(s, c) <==> s.nodes[c].cb;
    hide FlightsOk, ChildrenOk, IsWaiting;
  }

  lemma CalleePlace(s: Net, q: Ref)
    requires Shape(s) && FlightsOk(s) && ChildrenOk(s) && CallsLeft(s, q)
    ensures Callee(s, q) < |s.nodes|
    ensures s.place[Callee(s, q)] == if s.flights[q].next == 0 then Notifying else ChildOf(q, s.flights[q].next - 1)
  {}

  // A callback changes only whether its callee waits.
  lemma CallWaiting(s: Net, q: Ref, r: Ref)
    requires Shape(s) && FlightsOk(s) && ChildrenOk(s) && CallsLeft(s, q) && r < |s.nodes|
    ensures IsWaiting(CallNext(s, q), r) <==> IsWaiting(s, r) && r != Callee(s, q)
  {
    CalleePlace(s, q);
    assert s.place[r].ChildOf? && s.place[r].parent == q ==> s.nodes[q].children[s.place[r].index] == r;
  }

  // Recycled nodes have been called, and the others stay as they are.
  lemma RecycleWaiting(s: Net, q: Ref, r: Ref)
    requires Shape(s) && FlightsOk(s) && ChildrenOk(s) && AllCalled(s, q) && r < |s.nodes|
    requires Shape(Recycle(s, q))
    ensures IsWaiting(Recycle(s, q), r) <==> IsWaiting(s, r)
  {
    var s', place := Recycle(s, q), s.place[r];
    if r in s.nodes[q].children || r == q {
      assert Called(s, r) && s'.place[r] == Free;
    } else {
      assert place.ChildOf? ==> place.parent != q;
    }
  }

  lemma RecycleWaits(s: Net, q: Ref)
    requires Shape(s) && FlightsOk(s) && ChildrenOk(s) && AllCalled(s, q)
    ensures Shape(Recycle(s, q)) && Waits(Recycle(s, q)) == Waits(s)
  {
    RecycleLinks(s, q);
    hide FlightsOk, ChildrenOk, IsWaiting;
    forall r: Ref | r < |s.nodes| ensures IsWaiting(Recycle(s, q), r) <==> IsWaiting(s, r) {
      RecycleWaiting(s, q, r);
    }
  }

  // ---------------------------------------------------------------- runs

  datatype State = State(net: Net, account: Account)

  const Initial := State(NoQueries, NoRequests)

  datatype Event =
    | StartHit(cb: bool, rcode: nat)          // answered from the cache
    | Start(key: Key, cb: bool, sent: bool)   // no usable cache entry; sent is transmit_query's outcome
    | Cancel(q: Ref, notify: bool)
    | Expire(q: Ref, sent: bool)              // the retransmission timer of q fires
    | Response(id: nat, rcode: nat)
    | Call(q: Ref)                            // next application callback of a dequeued query
    | CallCached(req: Req)
    | Finish(q: Ref)                          // all callbacks made: recycle the nodes
    | Idle                                    // a step of the cache alone

  predicate Enabled(s: State, e: Event) {
    match e
    case StartHit(_, _) => true
    case Start(key, _, _) => Shape(s.net) && (key in s.net.byRes ==> s.net.byRes[key] < |s.net.nodes|)
    case Cancel(q, notify) => CancelSafe(s.net, q, notify)
    case Expire(q, _) => Shape(s.net) && q < |s.net.nodes| && s.net.place[q] == Pending && s.net.nodes[q].timer
    case Response(id, _) => Shape(s.net) && (id in s.net.byId ==> s.net.byId[id] < |s.net.nodes|)
    case Call(q) => CallsLeft(s.net, q)
    case CallCached(req) => req in s.account.reading && req < |s.account.fate|
    case Idle => true
    case Finish(q) => Shape(s.net) && AllCalled(s.net, q)
  }

  predicate LapsAt(s: State, e: Event) {
    e.Start? && Laps(s.net, e.key, e.sent)
  }

  function CancelAccount(s: State, q: Ref, notify: bool): Account
    requires Shape(s.net) && q < |s.net.nodes|
  {
    var n := s.net.nodes[q];
    if !n.cb || n.req >= |s.account.fate| then s.account
    else if notify then Deliver(s.account, n.req, Cancelled)
    else if IsWaiting(s.net, q) then Silence(s.account, n.req)
    else s.account
  }

  function CallAccount(s: State, q: Ref): Account
    requires CallsLeft(s.net, q)
  {
    var c := Callee(s.net, q);
    if c < |s.net.nodes| && s.net.nodes[c].cb && s.net.nodes[c].req < |s.account.fate| then
      Deliver(s.account, s.net.nodes[c].req, s.net.flights[q].status)
    else s.account
  }

  function Step(s: State, e: Event, qretr: nat): State
    requires Enabled(s, e)
  {
    match e
    case StartHit(cb, rcode) => s.(account := AcceptHit(s.account, cb, rcode))
    case Start(key, cb, sent) =>
      State(StartQuery(s.net, key, s.account.accepted, cb, sent),
            if key in s.net.byRes || sent then Accept(s.account, cb, AllocRef(s.net)) else s.account)
    case Cancel(q, notify) => State(CancelNode(s.net, q), CancelAccount(s, q, notify))
    case Expire(q, sent) => s.(net := TimerFires(s.net, q, sent, qretr))
    case Response(id, rcode) => if id in s.net.byId then s.(net := Dequeue(s.net, s.net.byId[id], Answered(rcode))) else s
    case Call(q) => State(CallNext(s.net, q), CallAccount(s, q))
    case CallCached(req) =>
      s.(account := Deliver(s.account, req, s.account.reading[req]).(reading := s.account.reading - {req}))
    case Finish(q) => s.(net := Recycle(s.net, q))
    case Idle => s
  }

  // Between steps no node is in a thread's hands.
  ghost predicate Settled(s: Net)
    requires Shape(s)
  {
    forall r: Ref {:trigger s.place[r]} :: r < |s.nodes| ==> s.place[r] != Detached
  }

  ghost predicate Inv(s: State, qretr: nat) {
    NetOk(s.net, qretr) && Settled(s.net) && AccountOk(s.account, Waits(s.net))
  }

  ghost predicate StepAt(states: seq<State>, es: seq<Event>, qretr: nat, i: nat) {
    i < |es| && i + 1 < |states| &&
    Enabled(states[i], es[i]) && !LapsAt(states[i], es[i]) && states[i + 1] == Step(states[i], es[i], qretr)
  }

  // A run in which no transaction id laps a pending one.
  ghost predicate IsRun(states: seq<State>, es: seq<Event>, qretr: nat) {
    |states| == |es| + 1 && forall i: nat :: i < |es| ==> StepAt(states, es, qretr, i)
  }

  lemma StepNetOk(s: State, e: Event, qretr: nat)
    requires NetOk(s.net, qretr) && Enabled(s, e) && !LapsAt(s, e)
    ensures NetOk(Step(s, e, qretr).net, qretr)
  {
    match e
    case StartHit(_, _) =>
    case Start(key, cb, sent) => StartQueryOk(s.net, key, s.account.accepted, cb, sent, qretr);
    case Cancel(q, _) => CancelNodeOk(s.net, q, qretr);
    case Expire(q, sent) => TimerFiresOk(s.net, q, sent, qretr);
    case Response(id, rcode) => if id in s.net.byId { DequeueOk(s.net, s.net.byId[id], Answered(rcode), qretr); }
    case Call(q) => CallNextOk(s.net, q, qretr);
    case CallCached(_) =>
    case Finish(q) => RecycleOk(s.net, q, qretr);
    case Idle =>
  }

  lemma StepSettled(s: State, e: Event, qretr: nat)
    requires Shape(s.net) && Settled(s.net) && Enabled(s, e) && Shape(Step(s, e, qretr).net)
    ensures Settled(Step(s, e, qretr).net)
  {}

  lemma StartAccountOk(s: State, key: Key, cb: bool, sent: bool, qretr: nat)
    requires Inv(s, qretr)
    requires Shape(StartQuery(s.net, key, s.account.accepted, cb, sent))
    ensures var s' := Step(s, Start(key, cb, sent), qretr); AccountOk(s'.account, Waits(s'.net))
  {
    StartFacts(s, key, qretr);
    hide Inv, AccountOk, Waits, StartQuery, Accept, Shape;
    if key in s.net.byRes {
      JoinWaits(s.net, key, s.account.accepted, cb, sent);
    } else {
      QueryWaits(s.net, key, s.account.accepted, cb, sent);
    }
    AcceptOk(s.account, Waits(s.net), cb, AllocRef(s.net));
  }

  // What a new request finds.
  lemma StartFacts(s: State, key: Key, qretr: nat)
    requires Inv(s, qretr)
    ensures Shape(s.net) && AccountOk(s.account, Waits(s.net)) && (s.net.free != [] ==> s.net.place[s.net.free[0]] == Free)
    ensures key in s.net.byRes ==>
      s.net.byRes[key] < |s.net.nodes| && s.net.place[s.net.byRes[key]] == Pending && s.net.byRes[key] !in s.net.flights
  {
    hide AccountOk, Waits, ChildrenOk, TimersOk;
  }

  lemma CancelAccountOk(s: State, q: Ref, notify: bool)
    requires CancelSafe(s.net, q, notify) && AccountOk(s.account, Waits(s.net))
    ensures Shape(CancelNode(s.net, q)) && AccountOk(CancelAccount(s, q, notify), Waits(CancelNode(s.net, q)))
  {
    var w := Waits(s.net);
    CancelWaits(s.net, q);
    if q in w {
      DeliverOk(s.account, w, q, Cancelled);
      SilenceOk(s.account, w, q);
    } else {
      assert w - {q} == w;
    }
  }

  lemma CallAccountOk(s: State, q: Ref)
    requires Shape(s.net) && FlightsOk(s.net) && ChildrenOk(s.net) && CallsLeft(s.net, q) && AccountOk(s.account, Waits(s.net))
    ensures Shape(CallNext(s.net, q)) && AccountOk(CallAccount(s, q), Waits(CallNext(s.net, q)))
  {
    var w, c := Waits(s.net), Callee(s.net, q);
    CallWaits(s.net, q);
    if c in w {
      DeliverOk(s.account, w, c, s.net.flights[q].status);
    } else {
      assert w - {c} == w;
    }
  }

  // What a callback adds to the log.
  lemma CallLogs(s: State, q: Ref, qretr: nat)
    requires Inv(s, qretr) && CallsLeft(s.net, q)
    ensures var c := Callee(s.net, q);
      && c < |s.net.nodes|
      && CallAccount(s, q).log == s.account.log + if s.net.nodes[c].cb then [Delivery(s.net.nodes[c].req, s.net.flights[q].status)] else []
  {
    var c := Callee(s.net, q);
    CalleePlace(s.net, q);
    CallWaits(s.net, q);
    assert c in Waits(s.net) ==> Waits(s.net)[c] == s.net.nodes[c].req < |s.account.fate|;
    hide NetOk, AccountOk, Waits;
  }

  lemma StepAccountOk(s: State, e: Event, qretr: nat)
    requires Inv(s, qretr) && Enabled(s, e)
    requires Shape(Step(s, e, qretr).net)
    ensures AccountOk(Step(s, e, qretr).account, Waits(Step(s, e, qretr).net))
  {
    hide AccountOk, Waits;
    match e
    case StartHit(cb, rcode) => AcceptHitOk(s.account, Waits(s.net), cb, rcode);
    case Start(key, cb, sent) => StartAccountOk(s, key, cb, sent, qretr);
    case Cancel(q, notify) => CancelAccountOk(s, q, notify);
    case Expire(q, sent) => TimerWaits(s.net, q, sent, qretr);
    case Response(id, rcode) => if id in s.net.byId { DequeueWaits(s.net, s.net.byId[id], Answered(rcode)); }
    case Call(q) => CallAccountOk(s, q);
    case CallCached(req) => DeliverHitOk(s.account, Waits(s.net), req);
    case Finish(q) => RecycleWaits(s.net, q);
    case Idle =>
  }

  lemma StepInv(s: State, e: Event, qretr: nat)
    requires Inv(s, qretr) && Enabled(s, e) && !LapsAt(s, e)
    ensures Inv(Step(s, e, qretr), qretr)
  {
    StepNetOk(s, e, qretr);
    StepSettled(s, e, qretr);
    StepAccountOk(s, e, qretr);
  }

  lemma InitialInv(qretr: nat)
    ensures Inv(Initial, qretr)
  {
    NoQueriesOk(qretr);
    NothingWaits();
    hide NetOk, AccountOk, Waits;
    NoRequestsOk();
  }

  lemma NothingWaits()
    ensures Shape(NoQueries) && Waits(NoQueries) == map[] && Settled(NoQueries)
  {}

  lemma NoRequestsOk()
    ensures AccountOk(NoRequests, map[])
  {}

  lemma {:induction false} RunInv(states: seq<State>, es: seq<Event>, qretr: nat, i: nat)
    requires IsRun(states, es, qretr) && Inv(states[0], qretr) && i <= |es|
    ensures Inv(states[i], qretr)
  {
    if i > 0 {
      RunInv(states, es, qretr, i - 1);
      assert StepAt(states, es, qretr, i - 1);
      StepInv(states[i - 1], es[i - 1], qretr);
    }
  }

  lemma StartedInv(states: seq<State>, es: seq<Event>, qretr: nat, i: nat)
    requires IsRun(states, es, qretr) && states[0] == Initial && i <= |es|
    ensures Inv(states[i], qretr)
  {
    InitialInv(qretr);
    RunInv(states, es, qretr, i);
  }
}
