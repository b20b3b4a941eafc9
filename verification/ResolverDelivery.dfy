/** From the first expiry to the callback: a request that waits at an unanswered query is told
    PJ_ETIMEDOUT. */
module ResolverDelivery {
  import opened DnsTypes
  import opened ResolverNet
  import opened ResolverRuns
  import opened ResolverQueries
  import opened ResolverTimeouts

  // ---------------------------------------------------------------- waiting at a pending query

  // Node r, the query q or a child of it.
  predicate AtQuery(s: Net, q: Ref, r: Ref)
    requires Shape(s) && r < |s.nodes|
  {
    r == q || (s.place[r].ChildOf? && s.place[r].parent == q)
  }

  // The request req waits in node r at the pending query q.
  ghost predicate WaitsAt(s: Net, q: Ref, r: Ref, req: Req) {
    IsPendingIn(s, q) && r < |s.nodes| && AtQuery(s, q, r) && r in Waits(s) && Waits(s)[r] == req
  }

  // Enough of what a step keeps for r to go on waiting at q.
  lemma GoesOn(s: Net, s': Net, q: Ref, r: Ref, req: Req)
    requires WaitsAt(s, q, r, req) && IsPendingIn(s', q)
    requires r < |s'.nodes| && s'.place[r] == s.place[r] && r in Waits(s') && Waits(s')[r] == req
    ensures WaitsAt(s', q, r, req)
  {}

  lemma StartWaits(s: State, key: Key, cb: bool, sent: bool, qretr: nat, q: Ref, r: Ref, req: Req)
    requires Inv(s, qretr) && Enabled(s, Start(key, cb, sent)) && WaitsAt(s.net, q, r, req)
    requires IsPendingIn(Step(s, Start(key, cb, sent), qretr).net, q)
    ensures WaitsAt(Step(s, Start(key, cb, sent), qretr).net, q, r, req)
  {
    var s' := Step(s, Start(key, cb, sent), qretr);
    NotFree(s.net, r);
    StartFacts(s, key, qretr);
    hide Waits, StartQuery, Inv;
    StartKeeps(s.net, key, s.account.accepted, cb, sent, r);
    if key in s.net.byRes {
      JoinWaits(s.net, key, s.account.accepted, cb, sent);
    } else {
      QueryWaits(s.net, key, s.account.accepted, cb, sent);
    }
    GoesOn(s.net, s'.net, q, r, req);
  }

  lemma NotFree(s: Net, r: Ref)
    requires Shape(s) && r in Waits(s)
    ensures r < |s.nodes| && s.place[r] != Free
  {}

  lemma CancelKeepsOthers(s: State, c: Ref, notify: bool, qretr: nat, q: Ref, r: Ref, req: Req)
    requires CancelSafe(s.net, c, notify) && c != r && WaitsAt(s.net, q, r, req)
    ensures WaitsAt(Step(s, Cancel(c, notify), qretr).net, q, r, req)
  {
    CancelWaits(s.net, c);
  }

  lemma ExpireWaits(s: State, c: Ref, sent: bool, qretr: nat, q: Ref, r: Ref, req: Req)
    requires Shape(s.net) && FlightsOk(s.net) && Enabled(s, Expire(c, sent)) && WaitsAt(s.net, q, r, req)
    requires IsPendingIn(Step(s, Expire(c, sent), qretr).net, q)
    ensures WaitsAt(Step(s, Expire(c, sent), qretr).net, q, r, req)
  {
    TimerWaits(s.net, c, sent, qretr);
    hide Waits;
  }

  lemma ResponseWaits(s: Net, c: Ref, status: Status, q: Ref, r: Ref, req: Req)
    requires Shape(s) && FlightsOk(s) && IsPendingIn(s, c) && c != q && WaitsAt(s, q, r, req)
    ensures WaitsAt(Dequeue(s, c, status), q, r, req)
  {
    DequeueWaits(s, c, status);
    hide Waits;
  }

  lemma CallKeepsOthers(s: Net, p: Ref, q: Ref, r: Ref, req: Req)
    requires Shape(s) && FlightsOk(s) && ChildrenOk(s) && CallsLeft(s, p) && WaitsAt(s, q, r, req)
    ensures WaitsAt(CallNext(s, p), q, r, req)
  {
    CallWaits(s, p);
    assert Callee(s, p) != r by {
      var c := Callee(s, p);
      assert s.place[p] == Notifying;
      assert c != p ==> s.place[c] == ChildOf(p, s.flights[p].next - 1);
    }
    hide Waits;
  }

  lemma FinishKeepsOthers(s: Net, c: Ref, q: Ref, r: Ref, req: Req)
    requires Shape(s) && FlightsOk(s) && ChildrenOk(s) && AllCalled(s, c) && WaitsAt(s, q, r, req)
    ensures WaitsAt(Recycle(s, c), q, r, req)
  {
    RecycleWaits(s, c);
    hide Waits;
    assert s.place[c] == Notifying;
    assert q !in s.nodes[c].children && r !in s.nodes[c].children;
  }

  // A waiting request goes on waiting while its query is pending, unless it is itself cancelled.
  lemma StepWaits(s: State, e: Event, qretr: nat, q: Ref, r: Ref, req: Req)
    requires Inv(s, qretr) && Enabled(s, e) && !Cancels(e, r) && WaitsAt(s.net, q, r, req)
    requires IsPendingIn(Step(s, e, qretr).net, q)
    ensures WaitsAt(Step(s, e, qretr).net, q, r, req)
  {
    hide WaitsAt, AccountOk, TimersOk, FreeOk;
    match e
    case StartHit(_, _) =>
    case Start(key, cb, sent) => StartWaits(s, key, cb, sent, qretr, q, r, req);
    case Cancel(c, notify) => CancelKeepsOthers(s, c, notify, qretr, q, r, req);
    case Expire(c, sent) => ExpireWaits(s, c, sent, qretr, q, r, req);
    case Response(id, rcode) =>
      if id in s.net.byId { ResponseWaits(s.net, s.net.byId[id], Answered(rcode), q, r, req); }
    case Call(p) => CallKeepsOthers(s.net, p, q, r, req);
    case CallCached(_) =>
    case Finish(c) => FinishKeepsOthers(s.net, c, q, r, req);
    case Idle =>
  }

  // No answer to q's id, and no cancel of r, in the steps from i to j.
  ghost predicate LeftAlone(states: seq<State>, es: seq<Event>, i: nat, j: nat, q: Ref, r: Ref)
    requires i <= j <= |es| < |states| && q < |states[i].net.nodes|
  {
    forall k :: i <= k < j ==> !Cancels(es[k], r) && (es[k].Response? ==> es[k].id != states[i].net.nodes[q].id)
  }

  lemma {:induction false} RunWaits(states: seq<State>, es: seq<Event>, qretr: nat, i: nat, j: nat, q: Ref, r: Ref, req: Req)
    requires IsRun(states, es, qretr) && states[0] == Initial && i <= j <= |es| && WaitsAt(states[i].net, q, r, req)
    requires LeftAlone(states, es, i, j, q, r) && forall k :: i <= k < j ==> !TimedOutAt(states, es, q, k)
    ensures WaitsAt(states[j].net, q, r, req) && states[j].net.nodes[q].id == states[i].net.nodes[q].id
    decreases j
  {
    if i < j {
      RunWaits(states, es, qretr, i, j - 1, q, r, req);
      assert !TimedOutAt(states, es, q, j - 1);
      RunPending(states, es, qretr, j - 1, q);
      StartedInv(states, es, qretr, j - 1);
      assert StepAt(states, es, qretr, j - 1);
      hide Inv, Step, Enabled, WaitsAt, StepAt;
      StepWaits(states[j - 1], es[j - 1], qretr, q, r, req);
    }
  }

  // ---------------------------------------------------------------- the time-out is delivered

  lemma {:induction false} FirstTimeout(states: seq<State>, es: seq<Event>, i: nat, j: nat, q: Ref) returns (k: nat)
    requires exists k :: i <= k < j && TimedOutAt(states, es, q, k)
    ensures i <= k < j && TimedOutAt(states, es, q, k) && forall m :: i <= m < k ==> !TimedOutAt(states, es, q, m)
    decreases j - i
  {
    hide TimedOutAt;
    if TimedOutAt(states, es, q, i) { k := i; } else { k := FirstTimeout(states, es, i + 1, j, q); }
  }

  lemma {:induction false} FirstFinish(es: seq<Event>, i: nat, f: nat, q: Ref) returns (k: nat)
    requires i <= f < |es| && es[f] == Finish(q)
    ensures i <= k <= f && es[k] == Finish(q) && forall m :: i <= m < k ==> es[m] != Finish(q)
    decreases f - i
  {
    if es[i] == Finish(q) { k := i; } else { k := FirstFinish(es, i + 1, f, q); }
  }

  // At the time-out everyone who waited at the query is among those to be told.
  lemma TimeoutFindsWaiters(states: seq<State>, es: seq<Event>, qretr: nat, k: nat, q: Ref, r: Ref, req: Req)
    requires IsRun(states, es, qretr) && states[0] == Initial && k < |es|
    requires WaitsAt(states[k].net, q, r, req) && TimedOutAt(states, es, q, k)
    ensures (r == q || r in states[k + 1].net.nodes[q].children) && r in Waits(states[k + 1].net) && Waits(states[k + 1].net)[r] == req
  {
    RunNet(states, es, qretr, k);
    assert StepAt(states, es, qretr, k);
    var s, s' := states[k].net, states[k + 1].net;
    TimerWaits(s, q, es[k].sent, qretr);
    if r != q { assert s.nodes[q].children[s.place[r].index] == r; }
  }

  lemma LogGrows(states: seq<State>, es: seq<Event>, qretr: nat, i: nat, j: nat)
    requires IsRun(states, es, qretr) && states[0] == Initial && i <= j <= |es|
    ensures states[i].account.log <= states[j].account.log
  {
    hide Inv;
    InitialInv(qretr);
    RunIsFinal(states, es, qretr, i, j);
  }

  // A request that waits at a pending query, is not cancelled and gets no answer is told PJ_ETIMEDOUT
  // by the time the query's nodes are recycled, once max(1, qretr_count) expiries have passed.
  lemma TimeoutIsDelivered(states: seq<State>, es: seq<Event>, qretr: nat, i: nat, j: nat, f: nat, q: Ref, r: Ref, req: Req)
    requires IsRun(states, es, qretr) && states[0] == Initial && i <= j <= f < |es|
    requires WaitsAt(states[i].net, q, r, req) && LeftAlone(states, es, i, j, q, r) && forall k :: j <= k < f ==> !Cancels(es[k], r)
    requires CountExpiries(es[i..j], q) >= Max(1, qretr) && es[f] == Finish(q)
    ensures Delivery(req, TimedOut) in states[f].account.log
  {
    UnansweredTimesOut(states, es, qretr, i, j, q);
    var k := FirstTimeout(states, es, i, j, q);
    hide Waits, IsRun;
    RunWaits(states, es, qretr, i, k, q, r, req);
    TimeoutFindsWaiters(states, es, qretr, k, q, r, req);
    var g := FirstFinish(es, k + 1, f, q);
    FlightDelivers(states, es, qretr, k + 1, g, q, TimedOut, r);
    LogGrows(states, es, qretr, g, f);
  }
}
