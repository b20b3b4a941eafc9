/** Time-outs: how many timer expiries an unanswered query lives for, and who is told its end. */
module ResolverTimeouts {
  import opened DnsTypes
  import opened ResolverNet
  import opened ResolverRuns
  import opened ResolverQueries

  // ---------------------------------------------------------------- time-outs

  // r stays pending with the same occupant and gains at most children.
  ghost predicate StillPending(s: Net, s': Net, r: Ref)
    requires Shape(s) && Shape(s') && r < |s.nodes|
  {
    && r < |s'.nodes| && s'.place[r] == Pending
    && s'.nodes[r].req == s.nodes[r].req && s'.nodes[r].id == s.nodes[r].id && s'.nodes[r].key == s.nodes[r].key
    && s.nodes[r].children <= s'.nodes[r].children
  }

  ghost predicate Dequeued(s: Net, r: Ref, status: Status)
    requires Shape(s)
  {
    r < |s.nodes| && s.place[r] == Notifying && r in s.flights && s.flights[r] == Flight(0, status)
  }

  // What a step can do to a pending query.
  ghost predicate PendingOutcome(s: Net, s': Net, e: Event, r: Ref, qretr: nat)
    requires Shape(s) && Shape(s') && r < |s.nodes|
  {
    var n := s.nodes[r];
    if e.Expire? && e.q == r then
      if n.transmitCnt < qretr && e.sent then StillPending(s, s', r) && s'.nodes[r].transmitCnt == n.transmitCnt + 1
      else Dequeued(s', r, TimedOut)
    else if e.Response? && e.id == n.id then Dequeued(s', r, Answered(e.rcode))
    else StillPending(s, s', r) && s'.nodes[r].transmitCnt == n.transmitCnt
  }

  // A node is allocated away from the nodes in use.
  lemma AllocKeeps(s: Net, n: Node, r: Ref)
    requires Shape(s) && (s.free != [] ==> s.place[s.free[0]] == Free) && r < |s.nodes| && s.place[r] != Free
    ensures var s' := Alloc(s, n);
      && Shape(s') && |s'.nodes| >= |s.nodes| && AllocRef(s) < |s'.nodes| && AllocRef(s) != r
      && s'.flights == s.flights && s'.place[r] == s.place[r] && s'.nodes[r] == s.nodes[r]
  {}

  lemma StartPending(s: Net, key: Key, req: Req, cb: bool, sent: bool, r: Ref)
    requires Shape(s) && (s.free != [] ==> s.place[s.free[0]] == Free) && r < |s.nodes| && s.place[r] == Pending
    requires key in s.byRes ==> s.byRes[key] < |s.nodes|
    ensures var s' := StartQuery(s, key, req, cb, sent);
      Shape(s') && StillPending(s, s', r) && s'.nodes[r].transmitCnt == s.nodes[r].transmitCnt
  {
    AllocKeeps(s, if key in s.byRes then ChildNode(req, cb) else QueryNode(s, req, cb, key, sent), r);
    hide Alloc, AllocRef;
  }

  lemma StepPending(s: State, e: Event, r: Ref, qretr: nat)
    requires Shape(s.net) && TablesOk(s.net) && (s.net.free != [] ==> s.net.place[s.net.free[0]] == Free) && Enabled(s, e)
    requires r < |s.net.nodes| && s.net.place[r] == Pending && Shape(Step(s, e, qretr).net)
    requires e.Finish? ==> s.net.place[e.q] == Notifying && r !in s.net.nodes[e.q].children
    ensures PendingOutcome(s.net, Step(s, e, qretr).net, e, r, qretr)
  {
    match e
    case Start(key, cb, sent) =>
      hide StartQuery, StillPending;
      StartPending(s.net, key, s.account.accepted, cb, sent, r);
    case Expire(q, sent) =>
      hide TablesOk, Dequeued, TimerFires, StillPending;
      TimerPending(s.net, q, sent, qretr, r);
    case Response(id, rcode) =>
      hide TablesOk, Dequeued, StillPending, Dequeue;
      ResponsePending(s.net, id, Answered(rcode), r);
      NothingPending(s.net, r);
    case Finish(q) =>
      hide TablesOk, Recycle, StillPending;
      RecyclePending(s.net, q, r);
    case Cancel(q, _) =>
      hide TablesOk, CancelNode, StillPending;
      CancelPending(s.net, q, r);
    case _ =>
      hide TablesOk;
      assert Step(s, e, qretr).net.nodes == s.net.nodes && Step(s, e, qretr).net.place == s.net.place;
  }

  lemma CancelPending(s: Net, q: Ref, r: Ref)
    requires IsPendingIn(s, r) && q < |s.nodes|
    ensures Shape(CancelNode(s, q)) && StillPending(s, CancelNode(s, q), r) && CancelNode(s, q).nodes[r].transmitCnt == s.nodes[r].transmitCnt
  {}

  lemma NothingPending(s: Net, r: Ref)
    requires IsPendingIn(s, r)
    ensures StillPending(s, s, r)
  {}

  lemma ResponsePending(s: Net, id: nat, status: Status, r: Ref)
    requires IsPendingIn(s, r) && TablesOk(s)
    ensures id == s.nodes[r].id ==> id in s.byId && s.byId[id] == r && Shape(Dequeue(s, r, status)) && Dequeued(Dequeue(s, r, status), r, status)
    ensures id in s.byId && id != s.nodes[r].id ==>
      var q := s.byId[id];
      q < |s.nodes| && Shape(Dequeue(s, q, status)) && StillPending(s, Dequeue(s, q, status), r) && Dequeue(s, q, status).nodes[r].transmitCnt == s.nodes[r].transmitCnt
  {
    if id in s.byId && id != s.nodes[r].id {
      hide Dequeue;
      DequeuePending(s, s.byId[id], status, r);
    }
  }

  lemma TimerPending(s: Net, q: Ref, sent: bool, qretr: nat, r: Ref)
    requires IsPendingIn(s, q) && IsPendingIn(s, r)
    ensures var s' := TimerFires(s, q, sent, qretr);
      Shape(s') &&
      if q != r then StillPending(s, s', r) && s'.nodes[r].transmitCnt == s.nodes[r].transmitCnt
      else if s.nodes[r].transmitCnt < qretr && sent then StillPending(s, s', r) && s'.nodes[r].transmitCnt == s.nodes[r].transmitCnt + 1
      else Dequeued(s', r, TimedOut)
  {}

  lemma DequeuePending(s: Net, q: Ref, status: Status, r: Ref)
    requires IsPendingIn(s, q) && IsPendingIn(s, r) && q != r
    ensures Shape(Dequeue(s, q, status)) && StillPending(s, Dequeue(s, q, status), r)
    ensures Dequeue(s, q, status).nodes[r].transmitCnt == s.nodes[r].transmitCnt
  {}

  lemma RecyclePending(s: Net, q: Ref, r: Ref)
    requires IsPendingIn(s, r) && q < |s.nodes| && Shape(Recycle(s, q)) && q != r && r !in s.nodes[q].children
    ensures StillPending(s, Recycle(s, q), r) && Recycle(s, q).nodes[r].transmitCnt == s.nodes[r].transmitCnt
  {}

  lemma RunPending(states: seq<State>, es: seq<Event>, qretr: nat, i: nat, r: Ref)
    requires IsRun(states, es, qretr) && states[0] == Initial && i < |es|
    requires Shape(states[i].net) && r < |states[i].net.nodes| && states[i].net.place[r] == Pending
    ensures Shape(states[i + 1].net) && PendingOutcome(states[i].net, states[i + 1].net, es[i], r, qretr)
  {
    RunNet(states, es, qretr, i);
    assert StepAt(states, es, qretr, i);
    StepNetOk(states[i], es[i], qretr);
    StepPending(states[i], es[i], r, qretr);
  }

  function CountExpiries(es: seq<Event>, r: Ref): nat {
    if es == [] then 0
    else CountExpiries(es[..|es| - 1], r) + Bit(es[|es| - 1].Expire? && es[|es| - 1].q == r)
  }

  lemma CountLast(es: seq<Event>, i: nat, j: nat, r: Ref)
    requires i < j <= |es|
    ensures CountExpiries(es[i..j], r) == CountExpiries(es[i..j - 1], r) + Bit(es[j - 1].Expire? && es[j - 1].q == r)
  {
    assert es[i..j][..j - i - 1] == es[i..j - 1] && es[i..j][j - i - 1] == es[j - 1];
  }

  ghost predicate TimedOutAt(states: seq<State>, es: seq<Event>, r: Ref, k: nat) {
    k < |es| && k + 1 < |states| && es[k].Expire? && es[k].q == r &&
    Shape(states[k + 1].net) && Dequeued(states[k + 1].net, r, TimedOut)
  }

  lemma RunNet(states: seq<State>, es: seq<Event>, qretr: nat, i: nat)
    requires IsRun(states, es, qretr) && states[0] == Initial && i <= |es|
    ensures NetOk(states[i].net, qretr)
  {
    StartedInv(states, es, qretr, i);
  }

  // The transmission count of a query that is never answered counts its timer expiries.
  lemma {:induction false} ExpiriesAreCounted(states: seq<State>, es: seq<Event>, qretr: nat, i: nat, j: nat, r: Ref)
    requires IsRun(states, es, qretr) && states[0] == Initial && i <= j <= |es|
    requires Shape(states[i].net) && r < |states[i].net.nodes| && states[i].net.place[r] == Pending
    requires forall k :: i <= k < j && es[k].Response? ==> es[k].id != states[i].net.nodes[r].id
    requires forall k :: i <= k < j ==> !TimedOutAt(states, es, r, k)
    ensures Shape(states[j].net) && StillPending(states[i].net, states[j].net, r)
    ensures states[j].net.nodes[r].transmitCnt == states[i].net.nodes[r].transmitCnt + CountExpiries(es[i..j], r)
    decreases j
  {
    if i < j {
      ExpiriesAreCounted(states, es, qretr, i, j - 1, r);
      CountLast(es, i, j, r);
      assert !TimedOutAt(states, es, r, j - 1);
      RunPending(states, es, qretr, j - 1, r);
    }
  }

  // A query that is not answered is timed out by at most max(1, qretr_count) expiries of its timer.
  lemma UnansweredTimesOut(states: seq<State>, es: seq<Event>, qretr: nat, i: nat, j: nat, r: Ref)
    requires IsRun(states, es, qretr) && states[0] == Initial && i <= j <= |es|
    requires Shape(states[i].net) && r < |states[i].net.nodes| && states[i].net.place[r] == Pending
    requires forall k :: i <= k < j && es[k].Response? ==> es[k].id != states[i].net.nodes[r].id
    requires CountExpiries(es[i..j], r) >= Max(1, qretr)
    ensures exists k :: i <= k < j && TimedOutAt(states, es, r, k)
  {
    if forall k :: i <= k < j ==> !TimedOutAt(states, es, r, k) {
      ExpiriesAreCounted(states, es, qretr, i, j, r);
      RunNet(states, es, qretr, i);
      RunNet(states, es, qretr, j);
    }
  }

  // ---------------------------------------------------------------- when the timer is armed

  predicate IsPendingIn(s: Net, r: Ref) {
    Shape(s) && r < |s.nodes| && s.place[r] == Pending
  }

  // The Start at step a entered r, which has been pending ever since, up to state i.
  ghost predicate PendingSince(states: seq<State>, es: seq<Event>, r: Ref, a: nat, i: nat) {
    && a < i <= |es| < |states| && es[a].Start? && es[a].sent && es[a].key !in states[a].net.byRes && AllocRef(states[a].net) == r
    && forall k :: a < k <= i ==> IsPendingIn(states[k].net, r)
  }

  predicate Cancels(e: Event, r: Ref) { e.Cancel? && e.q == r }

  // A step that makes a node pending is the Start of a new query in that node.
  lemma StepEnters(s: State, e: Event, qretr: nat, r: Ref)
    requires Shape(s.net) && Settled(s.net) && Enabled(s, e)
    requires IsPendingIn(Step(s, e, qretr).net, r) && !IsPendingIn(s.net, r)
    ensures e.Start? && e.sent && e.key !in s.net.byRes && AllocRef(s.net) == r
    ensures !Step(s, e, qretr).net.nodes[r].cancelled
  {}

  // Only a cancel of r marks it.
  lemma StepMarks(s: State, e: Event, qretr: nat, r: Ref)
    requires Shape(s.net) && (s.net.free != [] ==> s.net.place[s.net.free[0]] == Free) && Enabled(s, e)
    requires IsPendingIn(s.net, r) && IsPendingIn(Step(s, e, qretr).net, r)
    ensures Step(s, e, qretr).net.nodes[r].cancelled <==> s.net.nodes[r].cancelled || Cancels(e, r)
  {
    match e
    case Start(key, cb, sent) => StartMarks(s.net, key, s.account.accepted, cb, sent, r);
    case _ =>
  }

  lemma StartMarks(s: Net, key: Key, req: Req, cb: bool, sent: bool, r: Ref)
    requires Shape(s) && (s.free != [] ==> s.place[s.free[0]] == Free) && IsPendingIn(s, r) && (key in s.byRes ==> s.byRes[key] < |s.nodes|)
    ensures r < |StartQuery(s, key, req, cb, sent).nodes| && StartQuery(s, key, req, cb, sent).nodes[r].cancelled == s.nodes[r].cancelled
  {
    AllocKeeps(s, if key in s.byRes then ChildNode(req, cb) else QueryNode(s, req, cb, key, sent), r);
    hide Alloc, AllocRef;
  }

  // Every pending query was entered by some Start.
  lemma {:induction false} PendingWasEntered(states: seq<State>, es: seq<Event>, qretr: nat, i: nat, r: Ref) returns (a: nat)
    requires IsRun(states, es, qretr) && states[0] == Initial && i <= |es| && IsPendingIn(states[i].net, r)
    ensures PendingSince(states, es, r, a, i)
  {
    hide Inv, Enabled, Step;
    assert StepAt(states, es, qretr, i - 1);
    if IsPendingIn(states[i - 1].net, r) {
      a := PendingWasEntered(states, es, qretr, i - 1, r);
    } else {
      a := i - 1;
      Settles(states, es, qretr, a);
      StepEnters(states[a], es[a], qretr, r);
    }
  }

  lemma Settles(states: seq<State>, es: seq<Event>, qretr: nat, i: nat)
    requires IsRun(states, es, qretr) && states[0] == Initial && i <= |es|
    ensures Shape(states[i].net) && Settled(states[i].net)
    ensures states[i].net.free != [] ==> states[i].net.place[states[i].net.free[0]] == Free
  {
    StartedInv(states, es, qretr, i);
  }

  lemma {:induction false} MarkedByCancel(states: seq<State>, es: seq<Event>, qretr: nat, a: nat, i: nat, r: Ref)
    requires IsRun(states, es, qretr) && states[0] == Initial && PendingSince(states, es, r, a, i)
    ensures states[i].net.nodes[r].cancelled <==> exists k :: a < k < i && Cancels(es[k], r)
    decreases i
  {
    hide Enabled, Step;
    assert StepAt(states, es, qretr, i - 1);
    Settles(states, es, qretr, i - 1);
    if i == a + 1 {
      FreshlyEntered(states[a], es[a], qretr, r);
    } else {
      MarkedByCancel(states, es, qretr, a, i - 1, r);
      StepMarks(states[i - 1], es[i - 1], qretr, r);
    }
  }

  lemma FreshlyEntered(s: State, e: Event, qretr: nat, r: Ref)
    requires Shape(s.net) && Enabled(s, e) && e.Start? && e.sent && e.key !in s.net.byRes && AllocRef(s.net) == r
    ensures r < |Step(s, e, qretr).net.nodes| && !Step(s, e, qretr).net.nodes[r].cancelled
  {}

  // A pending query can expire if and only if its node was not cancelled since the Start that entered it.
  lemma ArmedUnlessCancelled(states: seq<State>, es: seq<Event>, qretr: nat, a: nat, i: nat, r: Ref, sent: bool)
    requires IsRun(states, es, qretr) && states[0] == Initial && PendingSince(states, es, r, a, i)
    ensures Enabled(states[i], Expire(r, sent)) <==> !exists k :: a < k < i && Cancels(es[k], r)
  {
    MarkedByCancel(states, es, qretr, a, i, r);
    TimerIsArmed(states, es, qretr, i, r, sent);
  }

  lemma TimerIsArmed(states: seq<State>, es: seq<Event>, qretr: nat, i: nat, r: Ref, sent: bool)
    requires IsRun(states, es, qretr) && states[0] == Initial && i <= |es| && IsPendingIn(states[i].net, r)
    ensures Enabled(states[i], Expire(r, sent)) <==> !states[i].net.nodes[r].cancelled
  {
    RunNet(states, es, qretr, i);
  }

  // A query that a second request joins, and whose first request is then cancelled.
  function Started(key: Key): Net {
    Net([Node(0, true, 1, key, 1, true, [], false)], map[1 := 0], map[key := 0], [], 2, map[], [Pending])
  }

  function Joined(key: Key, timer: bool): Net {
    Net([Node(0, timer, 1, key, 1, timer, [1], !timer), ChildNode(1, true)], map[1 := 0], map[key := 0], [], 2, map[],
        [Pending, ChildOf(0, 0)])
  }

  lemma JoinSteps(key: Key)
    ensures StartQuery(NoQueries, key, 0, true, true) == Started(key)
    ensures StartQuery(Started(key), key, 1, true, true) == Joined(key, true)
    ensures CancelNode(Joined(key, true), 0) == Joined(key, false)
  {
    var s1, s2, s3 := StartQuery(NoQueries, key, 0, true, true), StartQuery(Started(key), key, 1, true, true), CancelNode(Joined(key, true), 0);
    assert s1.nodes == Started(key).nodes && s1.place == Started(key).place;
    assert s2.nodes[0].children == [1];
    assert s2.nodes == Joined(key, true).nodes && s2.place == Joined(key, true).place;
    assert s3.nodes == Joined(key, false).nodes;
  }

  // So cancelling the request that started a query leaves those that joined it without a time-out.
  lemma CancelStrandsChildren(key: Key, qretr: nat, sent: bool)
    ensures var es := [Start(key, true, true), Start(key, true, true), Cancel(0, false)];
      exists states: seq<State> :: |states| == 4 && states[0] == Initial && IsRun(states, es, qretr) &&
        states[3].net == Joined(key, false) && 1 in Waits(states[3].net) && !Enabled(states[3], Expire(0, sent))
  {
    JoinSteps(key);
    hide StartQuery, CancelNode;
    var e := Start(key, true, true);
    var s1 := Step(Initial, e, qretr);
    var s2 := Step(s1, e, qretr);
    var s3 := Step(s2, Cancel(0, false), qretr);
    var states, es := [Initial, s1, s2, s3], [e, e, Cancel(0, false)];
    assert StepAt(states, es, qretr, 0) && StepAt(states, es, qretr, 1) && StepAt(states, es, qretr, 2);
    assert IsRun(states, es, qretr);
  }

  // ---------------------------------------------------------------- a dequeued query notifies everyone

  // Node r, the dequeued query q or one of its children, holds req; req has been told the status of
  // q's flight, or is still waiting for it.
  ghost predicate Owed(s: State, q: Ref, status: Status, r: Ref, req: Req) {
    && Shape(s.net) && q < |s.net.nodes| && s.net.place[q] == Notifying && q in s.net.flights && s.net.flights[q].status == status
    && r < |s.net.nodes| && s.net.nodes[r].req == req
    && (r == q || (s.net.place[r].ChildOf? && s.net.place[r].parent == q))
    && (r in Waits(s.net) || Delivery(req, status) in s.account.log)
  }

  // A new request takes no node that is in use.
  lemma StartKeeps(s: Net, key: Key, req: Req, cb: bool, sent: bool, r: Ref)
    requires Shape(s) && (s.free != [] ==> s.place[s.free[0]] == Free) && (key in s.byRes ==> s.byRes[key] < |s.nodes|)
    requires r < |s.nodes| && s.place[r] != Free
    ensures var s' := StartQuery(s, key, req, cb, sent);
      s'.flights == s.flights && |s'.nodes| >= |s.nodes| && Shape(s') && s'.place[r] == s.place[r] && s'.nodes[r].req == s.nodes[r].req
  {
    AllocKeeps(s, if key in s.byRes then ChildNode(req, cb) else QueryNode(s, req, cb, key, sent), r);
    hide Alloc, AllocRef;
  }

  lemma StartOwed(s: State, key: Key, cb: bool, sent: bool, qretr: nat, q: Ref, status: Status, r: Ref, req: Req)
    requires Shape(s.net) && (s.net.free != [] ==> s.net.place[s.net.free[0]] == Free) && Owed(s, q, status, r, req)
    requires key in s.net.byRes ==>
      s.net.byRes[key] < |s.net.nodes| && s.net.place[s.net.byRes[key]] == Pending && s.net.byRes[key] !in s.net.flights
    ensures Owed(Step(s, Start(key, cb, sent), qretr), q, status, r, req)
  {
    hide Waits, StartQuery;
    if key in s.net.byRes {
      JoinWaits(s.net, key, s.account.accepted, cb, sent);
    } else {
      QueryWaits(s.net, key, s.account.accepted, cb, sent);
    }
    StartKeeps(s.net, key, s.account.accepted, cb, sent, q);
    StartKeeps(s.net, key, s.account.accepted, cb, sent, r);
  }

  lemma CancelOwed(s: State, c: Ref, notify: bool, qretr: nat, q: Ref, status: Status, r: Ref, req: Req)
    requires CancelSafe(s.net, c, notify) && c != r && Owed(s, q, status, r, req)
    ensures Owed(Step(s, Cancel(c, notify), qretr), q, status, r, req)
  {
    CancelWaits(s.net, c);
  }

  lemma ExpireOwed(s: State, c: Ref, sent: bool, qretr: nat, q: Ref, status: Status, r: Ref, req: Req)
    requires Shape(s.net) && FlightsOk(s.net) && Enabled(s, Expire(c, sent)) && Owed(s, q, status, r, req)
    ensures Owed(Step(s, Expire(c, sent), qretr), q, status, r, req)
  {
    TimerWaits(s.net, c, sent, qretr);
  }

  lemma FinishOwed(s: State, c: Ref, qretr: nat, q: Ref, status: Status, r: Ref, req: Req)
    requires Shape(s.net) && FlightsOk(s.net) && ChildrenOk(s.net) && AllCalled(s.net, c) && c != q && Owed(s, q, status, r, req)
    ensures Owed(Step(s, Finish(c), qretr), q, status, r, req)
  {
    RecycleWaits(s.net, c);
    assert q !in s.net.nodes[c].children && r !in s.net.nodes[c].children;
  }

  lemma DequeueOwed(s: State, c: Ref, st: Status, q: Ref, status: Status, r: Ref, req: Req)
    requires Shape(s.net) && FlightsOk(s.net) && c < |s.net.nodes| && s.net.place[c] == Pending && Owed(s, q, status, r, req)
    ensures Owed(s.(net := Dequeue(s.net, c, st)), q, status, r, req)
  {
    DequeueWaits(s.net, c, st);
  }

  lemma LogOwed(s: State, s': State, q: Ref, status: Status, r: Ref, req: Req)
    requires Owed(s, q, status, r, req) && s'.net == s.net && s.account.log <= s'.account.log
    ensures Owed(s', q, status, r, req)
  {}

  lemma CallOwed(s: State, p: Ref, qretr: nat, q: Ref, status: Status, r: Ref, req: Req)
    requires Inv(s, qretr) && CallsLeft(s.net, p) && Owed(s, q, status, r, req)
    ensures Owed(Step(s, Call(p), qretr), q, status, r, req)
  {
    hide Inv, Waits, CallAccount, Callee;
    CallTells(s, p, qretr, q, status, r, req);
  }

  lemma CallTells(s: State, p: Ref, qretr: nat, q: Ref, status: Status, r: Ref, req: Req)
    requires Inv(s, qretr) && CallsLeft(s.net, p) && Owed(s, q, status, r, req)
    ensures s.account.log <= CallAccount(s, p).log
    ensures r in Waits(s.net) ==> r in Waits(CallNext(s.net, p)) || Delivery(req, status) in CallAccount(s, p).log
  {
    hide FlightsOk, ChildrenOk, TablesOk, FreeOk, TimersOk, AccountOk, Waits, CallAccount, CallNext, Callee;
    CalleeOfQuery(s, p, qretr, q, r);
    CallLogs(s, p, qretr);
    CallWaits(s.net, p);
    if r in Waits(s.net) && r == Callee(s.net, p) {
      assert CallAccount(s, p).log[|s.account.log|] == Delivery(req, status);
    }
  }

  // The callee of a flight belongs to that flight's query.
  lemma CalleeOfQuery(s: State, p: Ref, qretr: nat, q: Ref, r: Ref)
    requires Inv(s, qretr) && CallsLeft(s.net, p) && q < |s.net.nodes| && s.net.place[q] == Notifying && r < |s.net.nodes|
    requires r == q || (s.net.place[r].ChildOf? && s.net.place[r].parent == q)
    ensures r == Callee(s.net, p) ==> p == q
  {
    CalleePlace(s.net, p);
  }

  lemma StepOwed(s: State, e: Event, qretr: nat, q: Ref, status: Status, r: Ref, req: Req)
    requires Inv(s, qretr) && Enabled(s, e) && e != Finish(q) && !Cancels(e, r) && Owed(s, q, status, r, req)
    ensures Owed(Step(s, e, qretr), q, status, r, req)
  {
    hide Owed, Waits, AccountOk, TimersOk;
    match e
    case StartHit(_, _) => LogOwed(s, Step(s, e, qretr), q, status, r, req);
    case Start(key, cb, sent) => StartOwed(s, key, cb, sent, qretr, q, status, r, req);
    case Cancel(c, notify) => CancelOwed(s, c, notify, qretr, q, status, r, req);
    case Expire(c, sent) => ExpireOwed(s, c, sent, qretr, q, status, r, req);
    case Response(id, rcode) => if id in s.net.byId { DequeueOwed(s, s.net.byId[id], Answered(rcode), q, status, r, req); }
    case Call(p) => CallOwed(s, p, qretr, q, status, r, req);
    case CallCached(_) => LogOwed(s, Step(s, e, qretr), q, status, r, req);
    case Finish(c) => FinishOwed(s, c, qretr, q, status, r, req);
    case Idle =>
  }

  lemma {:induction false} RunOwed(states: seq<State>, es: seq<Event>, qretr: nat, i: nat, j: nat, q: Ref, status: Status, r: Ref, req: Req)
    requires IsRun(states, es, qretr) && Inv(states[0], qretr) && i <= j <= |es|
    requires Owed(states[i], q, status, r, req) && forall k :: i <= k < j ==> es[k] != Finish(q) && !Cancels(es[k], r)
    ensures Owed(states[j], q, status, r, req)
    decreases j
  {
    hide Inv, Step, Enabled, Owed;
    if i < j {
      RunOwed(states, es, qretr, i, j - 1, q, status, r, req);
      RunInv(states, es, qretr, j - 1);
      assert StepAt(states, es, qretr, j - 1);
      StepOwed(states[j - 1], es[j - 1], qretr, q, status, r, req);
    }
  }

  lemma StartedOwed(states: seq<State>, es: seq<Event>, qretr: nat, i: nat, j: nat, q: Ref, status: Status, r: Ref, req: Req)
    requires IsRun(states, es, qretr) && states[0] == Initial && i <= j <= |es|
    requires Owed(states[i], q, status, r, req) && forall k :: i <= k < j ==> es[k] != Finish(q) && !Cancels(es[k], r)
    ensures Owed(states[j], q, status, r, req)
  {
    hide Inv, Owed;
    InitialInv(qretr);
    RunOwed(states, es, qretr, i, j, q, status, r, req);
  }

  // When the nodes of a dequeued query are recycled, everyone waiting at it when it was dequeued has
  // been told its status, unless cancelled in the meantime.
  lemma FlightDelivers(states: seq<State>, es: seq<Event>, qretr: nat, i: nat, j: nat, q: Ref, status: Status, r: Ref)
    requires IsRun(states, es, qretr) && states[0] == Initial && i <= j < |es|
    requires Shape(states[i].net) && Dequeued(states[i].net, q, status)
    requires r == q || r in states[i].net.nodes[q].children
    requires r in Waits(states[i].net)
    requires es[j] == Finish(q) && forall k :: i <= k < j ==> es[k] != Finish(q) && !Cancels(es[k], r)
    ensures Delivery(Waits(states[i].net)[r], status) in states[j].account.log
  {
    RunNet(states, es, qretr, i);
    StartedOwed(states, es, qretr, i, j, q, status, r, Waits(states[i].net)[r]);
    RunNet(states, es, qretr, j);
    assert StepAt(states, es, qretr, j);
  }
}
