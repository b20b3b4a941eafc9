/** What holds in every run of the resolver: the structure of the pending queries, transaction ids and
    the conservation of callbacks. */
module ResolverQueries {
  import opened DnsTypes
  import opened ResolverNet
  import opened ResolverRuns

  // ---------------------------------------------------------------- pending-query structure

  function Bit(b: bool): nat { if b then 1 else 0 }

  predicate IsPending(s: Net, r: Ref) { r in s.byId.Values }

  ghost predicate IsChildAt(s: Net, r: Ref, p: Ref, i: nat) {
    (p in s.byId.Values || p in s.flights) && p < |s.nodes| && i < |s.nodes[p].children| && s.nodes[p].children[i] == r
  }

  ghost predicate IsChild(s: Net, r: Ref) { exists p: Ref, i: nat :: IsChildAt(s, r, p, i) }

  // The two tables index the same nodes, each node under its own id and its own key.
  ghost predicate TablesAgree(s: Net) {
    && s.byId.Values == s.byRes.Values
    && (forall i <- s.byId :: s.byId[i] < |s.nodes| && s.nodes[s.byId[i]].id == i)
    && (forall k <- s.byRes :: s.byRes[k] < |s.nodes| && s.nodes[s.byRes[k]].key == k)
  }

  lemma TablesAgreeIfOk(s: Net)
    requires Shape(s) && TablesOk(s)
    ensures TablesAgree(s)
  {
    forall r ensures r in s.byId.Values <==> r in s.byRes.Values {
      if r in s.byId.Values { assert s.place[r] == Pending; }
      if r in s.byRes.Values { assert s.place[r] == Pending; }
    }
  }

  lemma PlaceByTable(s: Net, r: Ref)
    requires Shape(s) && TablesOk(s) && r < |s.nodes|
    ensures IsPending(s, r) <==> s.place[r] == Pending
  {
    if s.place[r] == Pending { assert s.byId[s.nodes[r].id] == r; }
  }

  lemma PlaceByLinks(s: Net, r: Ref)
    requires Shape(s) && TablesOk(s) && FlightsOk(s) && ChildrenOk(s) && r < |s.nodes|
    ensures r in s.flights <==> s.place[r] == Notifying
    ensures IsChild(s, r) <==> s.place[r].ChildOf?
    ensures forall p: Ref, i: nat :: IsChildAt(s, r, p, i) ==> s.place[r] == ChildOf(p, i)
  {
    forall p: Ref, i: nat | IsChildAt(s, r, p, i) ensures s.place[r] == ChildOf(p, i) {
      assert IsParent(s, p) by { if p !in s.flights { PlaceByTable(s, p); } }
    }
    if s.place[r].ChildOf? {
      var p, i := s.place[r].parent, s.place[r].index;
      assert IsChildAt(s, r, p, i) by { if s.place[p] == Pending { PlaceByTable(s, p); } }
    }
  }

  // Every node is in exactly one place, and a child has exactly one parent and position.
  lemma EveryNodeInOnePlace(states: seq<State>, es: seq<Event>, qretr: nat, i: nat, r: Ref)
    requires IsRun(states, es, qretr) && states[0] == Initial && i <= |es| && r < |states[i].net.nodes|
    ensures var s := states[i].net;
      && TablesAgree(s)
      && Bit(IsPending(s, r)) + Bit(IsChild(s, r)) + Bit(r in s.flights) + Bit(r in s.free) == 1
      && (forall p1: Ref, i1: nat, p2: Ref, i2: nat :: IsChildAt(s, r, p1, i1) && IsChildAt(s, r, p2, i2) ==> p1 == p2 && i1 == i2)
      && (forall j, k :: 0 <= j < k < |s.free| ==> s.free[j] != s.free[k])
  {
    StartedInv(states, es, qretr, i);
    var s := states[i].net;
    TablesAgreeIfOk(s);
    PlaceByTable(s, r);
    PlaceByLinks(s, r);
    assert r in s.free <==> s.place[r] == Free;
  }

  // Giving a new query an id that is still in use is exactly what breaks the agreement.
  lemma AgreementNeedsFreshId(s: Net, key: Key, req: Req, cb: bool, sent: bool, qretr: nat)
    requires NetOk(s, qretr)
    ensures TablesAgree(StartQuery(s, key, req, cb, sent)) <==> !Laps(s, key, sent)
  {
    if Laps(s, key, sent) {
      var prior, s' := s.byId[s.lastId], StartQuery(s, key, req, cb, sent);
      assert s.byRes[s.nodes[prior].key] == prior && s.nodes[prior].key != key;
      assert s'.byRes[s.nodes[prior].key] == prior;
      assert prior in s'.byRes.Values;
      forall i <- s'.byId ensures s'.byId[i] != prior {
        if i != s.lastId { assert s.nodes[s.byId[i]].id == i; }
      }
    } else {
      StartQueryOk(s, key, req, cb, sent, qretr);
      TablesAgreeIfOk(StartQuery(s, key, req, cb, sent));
    }
  }

  // ---------------------------------------------------------------- transaction ids

  function IdAfter(n: nat): nat {
    if n == 0 then NoQueries.lastId else NextId(IdAfter(n - 1))
  }

  lemma {:induction false} IdAfterRounds(q: nat, r: nat)
    requires r < 0xFFFF
    ensures IdAfter(0xFFFF * q + r) == r + 1
    decreases q, r
  {
    hide NextId;
    if r > 0 {
      IdAfterRounds(q, r - 1);
      NextIdIs(r);
    } else if q > 0 {
      IdAfterRounds(q - 1, 0xFFFE);
      NextIdIs(0xFFFF);
    }
  }

  lemma NextIdIs(id: nat)
    requires id < 0x10000
    ensures NextId(id) == if id == 0xFFFF then 1 else id + 1
  {}

  lemma IdAfterIs(n: nat)
    ensures IdAfter(n) == n % 0xFFFF + 1
  {
    hide IdAfter;
    IdAfterRounds(n / 0xFFFF, n % 0xFFFF);
    assert n == 0xFFFF * (n / 0xFFFF) + n % 0xFFFF;
  }

  // Ids are never 0, and fewer than 65535 allocations apart they differ.
  lemma IdsDiffer(m: nat, n: nat)
    requires m < n < m + 0xFFFF
    ensures 1 <= IdAfter(m) < 0x10000 && IdAfter(m) != IdAfter(n)
  {
    IdAfterIs(m);
    IdAfterIs(n);
    var a, b := m / 0xFFFF, n / 0xFFFF;
    assert m == 0xFFFF * a + m % 0xFFFF && n == 0xFFFF * b + n % 0xFFFF;
    assert n - m == 0xFFFF * (b - a) + (n % 0xFFFF - m % 0xFFFF);
  }

  // ---------------------------------------------------------------- an id that laps

  // The tables after a query for key has taken the first id and n others could not be sent.
  ghost predicate OneQuery(s: Net, key: Key, n: nat) {
    Shape(s) && s.byId == map[1 := 0] && s.byRes == map[key := 0] && s.lastId == IdAfter(n + 1)
  }

  lemma FirstStart(key: Key)
    ensures OneQuery(StartQuery(NoQueries, key, 0, true, true), key, 0)
  {
    assert IdAfter(1) == NextId(IdAfter(0)) == 2;
  }

  // A query that cannot be sent uses up an id.
  lemma FailedStart(s: Net, key: Key, other: Key, req: Req, n: nat)
    requires OneQuery(s, key, n) && other != key
    ensures OneQuery(StartQuery(s, other, req, false, false), key, n + 1)
  {}

  lemma Extended(states: seq<State>, es: seq<Event>, qretr: nat, e: Event)
    requires IsRun(states, es, qretr) && Enabled(states[|es|], e) && !LapsAt(states[|es|], e)
    ensures IsRun(states + [Step(states[|es|], e, qretr)], es + [e], qretr)
  {
    hide Enabled, LapsAt, Step;
    var states', es' := states + [Step(states[|es|], e, qretr)], es + [e];
    forall i: nat | i < |es'| ensures StepAt(states', es', qretr, i) {
      if i < |es| { assert StepAt(states, es, qretr, i); }
    }
  }

  lemma {:induction false} FailedStarts(key: Key, other: Key, qretr: nat, n: nat) returns (states: seq<State>, es: seq<Event>)
    requires other != key
    ensures IsRun(states, es, qretr) && states[0] == Initial && |es| == n + 1 && OneQuery(states[|es|].net, key, n)
  {
    hide StartQuery, OneQuery, Accept;
    if n == 0 {
      states, es := [Initial, Step(Initial, Start(key, true, true), qretr)], [Start(key, true, true)];
      FirstStart(key);
      assert StepAt(states, es, qretr, 0);
    } else {
      states, es := FailedStarts(key, other, qretr, n - 1);
      var s, e := states[|es|], Start(other, false, false);
      OneQueryNot(s.net, key, other, n - 1);
      FailedStart(s.net, key, other, s.account.accepted, n - 1);
      Extended(states, es, qretr, e);
      states, es := states + [Step(s, e, qretr)], es + [e];
    }
  }

  lemma OneQueryNot(s: Net, key: Key, other: Key, n: nat)
    requires OneQuery(s, key, n) && other != key
    ensures Shape(s) && other !in s.byRes
  {}

  // The condition can fail: there is a run after which the next query gets an id still in use, and
  // then the two tables disagree.
  lemma IdsCanLap(key: Key, other: Key, req: Req, cb: bool, qretr: nat) returns (states: seq<State>, es: seq<Event>)
    requires other != key
    ensures IsRun(states, es, qretr) && states[0] == Initial
    ensures Shape(states[|es|].net) && Laps(states[|es|].net, other, true)
    ensures !TablesAgree(StartQuery(states[|es|].net, other, req, cb, true))
  {
    states, es := FailedStarts(key, other, qretr, 0xFFFE);
    IdAfterIs(0xFFFF);
    StartedInv(states, es, qretr, |es|);
    assert Laps(states[|es|].net, other, true);
    hide TablesAgree, StartQuery;
    AgreementNeedsFreshId(states[|es|].net, other, req, cb, true, qretr);
  }

  // ---------------------------------------------------------------- callback conservation

  function Requests(n: nat): (r: set<Req>)
    ensures forall q: Req {:trigger q in r} :: q in r <==> q < n
  {
    if n == 0 then {} else Requests(n - 1) + {n - 1}
  }

  function Told(log: seq<Delivery>): set<Req> { set k | 0 <= k < |log| :: log[k].req }

  ghost predicate NoneTwice(log: seq<Delivery>) {
    forall j, k :: 0 <= j < k < |log| ==> log[j].req != log[k].req
  }

  lemma {:induction false} RequestsSize(n: nat)
    ensures |Requests(n)| == n
  {
    if n == 0 {
      assert Requests(0) == {};
    } else {
      RequestsSize(n - 1);
      assert Requests(n) == Requests(n - 1) + {n - 1};
    }
  }

  lemma {:induction false} ToldSize(log: seq<Delivery>)
    requires NoneTwice(log)
    ensures |Told(log)| == |log|
  {
    if log != [] {
      var init, last := log[..|log| - 1], log[|log| - 1];
      ToldSize(init);
      assert Told(log) == Told(init) + {last.req};
    }
  }

  lemma {:induction false} InjectiveValues(w: map<Ref, Req>)
    requires forall r1 <- w, r2 <- w :: r1 != r2 ==> w[r1] != w[r2]
    ensures |w.Values| == |w|
  {
    if w.Keys != {} {
      var r :| r in w;
      InjectiveValues(w - {r});
      assert w.Values == (w - {r}).Values + {w[r]} by {
        forall q <- w.Values ensures q in (w - {r}).Values + {w[r]} {
          var r1 :| r1 in w && w[r1] == q;
          assert r1 != r ==> (w - {r})[r1] == q;
        }
      }
      assert |w| == |w - {r}| + 1 by { assert w.Keys == (w - {r}).Keys + {r}; }
    }
  }

  // Each accepted request is in exactly one of four groups.
  lemma AccountPartition(a: Account, w: map<Ref, Req>)
    requires AccountOk(a, w)
    ensures NoneTwice(a.log)
    ensures Told(a.log) !! w.Values !! a.reading.Keys !! a.silent
    ensures Requests(a.accepted) == Told(a.log) + w.Values + a.reading.Keys + a.silent
  {
    forall q: Req | q < a.accepted ensures q in Told(a.log) + w.Values + a.reading.Keys + a.silent {
      var f := a.fate[q];
      if f.Waiting? { assert w[f.at] == q; }
    }
    forall q | q in w.Values ensures q < a.accepted && a.fate[q].Waiting? {
      var r :| r in w && w[r] == q;
    }
  }

  lemma DisjointSizes(a: set<Req>, b: set<Req>, c: set<Req>, d: set<Req>)
    requires a !! b !! c !! d
    ensures |a + b + c + d| == |a| + |b| + |c| + |d|
  {
    assert |a + b| == |a| + |b|;
    assert |a + b + c| == |a + b| + |c|;
  }

  lemma WaitersDiffer(a: Account, w: map<Ref, Req>)
    requires AccountOk(a, w)
    ensures forall r1 <- w, r2 <- w :: r1 != r2 ==> w[r1] != w[r2]
  {}

  lemma AccountSizes(a: Account, w: map<Ref, Req>)
    requires AccountOk(a, w)
    ensures a.accepted == |a.log| + |w| + |a.reading| + |a.silent|
  {
    AccountPartition(a, w);
    WaitersDiffer(a, w);
    hide AccountOk;
    InjectiveValues(w);
    RequestsSize(a.accepted);
    ToldSize(a.log);
    DisjointSizes(Told(a.log), w.Values, a.reading.Keys, a.silent);
  }

  // accepted = delivered + still waiting (for an answer, or for a cached one) + silenced,
  // and no request is delivered twice.
  lemma CallbackConservation(states: seq<State>, es: seq<Event>, qretr: nat, i: nat)
    requires IsRun(states, es, qretr) && states[0] == Initial && i <= |es|
    ensures Shape(states[i].net)
    ensures var a := states[i].account; var w := Waits(states[i].net);
      && NoneTwice(a.log)
      && Told(a.log) !! w.Values !! a.reading.Keys !! a.silent
      && Requests(a.accepted) == Told(a.log) + w.Values + a.reading.Keys + a.silent
      && a.accepted == |a.log| + |w| + |a.reading| + |a.silent|
  {
    StartedInv(states, es, qretr, i);
    AccountPartition(states[i].account, Waits(states[i].net));
    AccountSizes(states[i].account, Waits(states[i].net));
  }

  // Deliveries are never taken back, a silenced request stays silenced, and a request that is not
  // waiting any more does not wait again.
  ghost predicate Onward(a: Account, a': Account) {
    && a.log <= a'.log && a.silent <= a'.silent && |a.fate| <= |a'.fate|
    && (forall q: Req {:trigger a'.fate[q]} :: q < |a.fate| && !a.fate[q].Waiting? && !a.fate[q].Reading? ==> a'.fate[q] == a.fate[q])
  }

  lemma SameOnward(a: Account)
    ensures Onward(a, a)
  {}

  lemma AcceptOnward(a: Account, cb: bool, at: Ref, rcode: nat)
    ensures Onward(a, a) && Onward(a, Accept(a, cb, at)) && Onward(a, AcceptHit(a, cb, rcode))
  {}

  // Settling a request that waits.
  lemma SettleOnward(a: Account, w: map<Ref, Req>, r: Ref, status: Status)
    requires AccountOk(a, w) && r in w
    ensures w[r] < |a.fate| && Onward(a, Deliver(a, w[r], status)) && Onward(a, Silence(a, w[r]))
  {}

  lemma DeliverHitOnward(a: Account, w: map<Ref, Req>, q: Req)
    requires AccountOk(a, w) && q in a.reading
    ensures q < |a.fate| && Onward(a, Deliver(a, q, a.reading[q]).(reading := a.reading - {q}))
  {}

  lemma CancelOnward(s: State, q: Ref, notify: bool, qretr: nat)
    requires Inv(s, qretr) && CancelSafe(s.net, q, notify)
    ensures Onward(s.account, CancelAccount(s, q, notify))
  {
    CancelWaits(s.net, q);
    assert q in Waits(s.net) ==> Waits(s.net)[q] == s.net.nodes[q].req;
    hide AccountOk, Onward, Waits;
    if q in Waits(s.net) { SettleOnward(s.account, Waits(s.net), q, Cancelled); } else { SameOnward(s.account); }
  }

  lemma CallOnward(s: State, q: Ref, qretr: nat)
    requires Inv(s, qretr) && CallsLeft(s.net, q)
    ensures Onward(s.account, CallAccount(s, q))
  {
    CalleePlace(s.net, q);
    CallWaits(s.net, q);
    var c := Callee(s.net, q);
    assert c in Waits(s.net) ==> Waits(s.net)[c] == s.net.nodes[c].req;
    hide AccountOk, Onward, Waits;
    if c in Waits(s.net) { SettleOnward(s.account, Waits(s.net), c, s.net.flights[q].status); } else { SameOnward(s.account); }
  }

  lemma StepIsFinal(s: State, e: Event, qretr: nat)
    requires Inv(s, qretr) && Enabled(s, e)
    ensures Onward(s.account, Step(s, e, qretr).account)
  {
    assert Shape(s.net);
    hide NetOk, AccountOk, Waits, Onward;
    match e
    case StartHit(cb, rcode) => AcceptOnward(s.account, cb, 0, rcode);
    case Start(_, cb, _) => AcceptOnward(s.account, cb, AllocRef(s.net), 0);
    case Cancel(q, notify) => CancelOnward(s, q, notify, qretr);
    case Call(q) => CallOnward(s, q, qretr);
    case CallCached(req) => DeliverHitOnward(s.account, Waits(s.net), req);
    case _ => SameOnward(s.account);
  }

  lemma {:induction false} RunIsFinal(states: seq<State>, es: seq<Event>, qretr: nat, i: nat, j: nat)
    requires IsRun(states, es, qretr) && Inv(states[0], qretr) && i <= j <= |es|
    ensures Onward(states[i].account, states[j].account)
    decreases j
  {
    hide Inv, Step, Enabled;
    if i < j {
      RunIsFinal(states, es, qretr, i, j - 1);
      RunInv(states, es, qretr, j - 1);
      assert StepAt(states, es, qretr, j - 1);
      StepIsFinal(states[j - 1], es[j - 1], qretr);
    }
  }

  lemma SettledFateIsFinal(a: Account, w: map<Ref, Req>, a': Account, w': map<Ref, Req>, q: Req, k: nat)
    requires AccountOk(a, w) && AccountOk(a', w') && q < a.accepted <= a'.accepted
    requires (a.fate[q].Silent? || a.fate[q].Delivered?) && a'.fate[q] == a.fate[q]
    requires |a.log| <= k < |a'.log|
    ensures a'.log[k].req != q
  {}

  lemma RunAccount(states: seq<State>, es: seq<Event>, qretr: nat, i: nat)
    requires IsRun(states, es, qretr) && states[0] == Initial && i <= |es|
    ensures Shape(states[i].net) && AccountOk(states[i].account, Waits(states[i].net))
  {
    StartedInv(states, es, qretr, i);
  }

  lemma RunFates(states: seq<State>, es: seq<Event>, qretr: nat, i: nat, j: nat, q: Req)
    requires IsRun(states, es, qretr) && states[0] == Initial && i <= j <= |es| && q < |states[i].account.fate|
    requires states[i].account.fate[q].Silent? || states[i].account.fate[q].Delivered?
    ensures |states[i].account.fate| <= |states[j].account.fate| && states[j].account.fate[q] == states[i].account.fate[q]
  {
    InitialInv(qretr);
    RunIsFinal(states, es, qretr, i, j);
  }
}
