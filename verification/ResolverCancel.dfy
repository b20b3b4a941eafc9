/** Handles: what a cancel does to the request that was given the handle, at any time until the node is
    given out again. The code clears a callback when it is cancelled, and neither when it is made nor when
    its node is recycled, so a late cancel finds it again. */
module ResolverCancel {
  import opened DnsTypes
  import opened ResolverNet
  import opened ResolverRuns
  import opened ResolverQueries
  import opened ResolverTimeouts

  // ---------------------------------------------------------------- holding a handle

  // The Start e was accepted, and gave out node r as the handle of a request with a callback.
  predicate GivesOut(s: State, e: Event, r: Ref) {
    e.Start? && e.cb && (e.key in s.net.byRes || e.sent) && AllocRef(s.net) == r
  }

  predicate Allocates(s: State, e: Event, r: Ref) { e.Start? && AllocRef(s.net) == r }

  // The Start at step a gave out r, and up to state i no other Start has taken it.
  ghost predicate HeldSince(states: seq<State>, es: seq<Event>, r: Ref, a: nat, i: nat) {
    a < i <= |es| < |states| && GivesOut(states[a], es[a], r) && forall k :: a < k < i ==> !Allocates(states[k], es[k], r)
  }

  // The request in node r waits, or it has been told, or it was silenced and its callback is gone.
  ghost predicate Held(s: State, r: Ref, req: Req) {
    && Shape(s.net) && r < |s.net.nodes| && s.net.nodes[r].req == req && req < |s.account.fate|
    && (r in Waits(s.net) || s.account.fate[req].Delivered? || (s.account.fate[req].Silent? && !s.net.nodes[r].cb))
  }

  lemma StartHolds(s: State, e: Event, qretr: nat, r: Ref)
    requires Inv(s, qretr) && Enabled(s, e) && GivesOut(s, e, r)
    ensures Held(Step(s, e, qretr), r, s.account.accepted)
  {
    StartFacts(s, e.key, qretr);
    assert |s.account.fate| == s.account.accepted;
    hide Inv, Waits, StartQuery;
    var req := s.account.accepted;
    if e.key in s.net.byRes {
      JoinWaits(s.net, e.key, req, e.cb, e.sent);
    } else {
      QueryWaits(s.net, e.key, req, e.cb, e.sent);
    }
    WaitsHolds(Step(s, e, qretr).net, r);
  }

  lemma WaitsHolds(s: Net, r: Ref)
    requires Shape(s) && r in Waits(s)
    ensures r < |s.nodes| && s.nodes[r].req == Waits(s)[r] && s.nodes[r].cb
  {}

  // A step that does not allocate r leaves its request in it, and its callback unless it cancels r.
  lemma StepNode(s: State, e: Event, qretr: nat, r: Ref)
    requires Shape(s.net) && Enabled(s, e) && r < |s.net.nodes| && !Allocates(s, e, r) && Shape(Step(s, e, qretr).net)
    ensures var n, s' := s.net.nodes[r], Step(s, e, qretr).net;
      r < |s'.nodes| && s'.nodes[r].req == n.req && s'.nodes[r].cb == (n.cb && !Cancels(e, r))
  {
    match e
    case Start(key, cb, sent) => StartNode(s.net, key, s.account.accepted, cb, sent, r);
    case _ =>
  }

  lemma StartNode(s: Net, key: Key, req: Req, cb: bool, sent: bool, r: Ref)
    requires Shape(s) && (key in s.byRes ==> s.byRes[key] < |s.nodes|) && r < |s.nodes| && AllocRef(s) != r
    ensures var s' := StartQuery(s, key, req, cb, sent);
      Shape(s') && r < |s'.nodes| && s'.nodes[r].req == s.nodes[r].req && s'.nodes[r].cb == s.nodes[r].cb
  {
    AllocNode(s, if key in s.byRes then ChildNode(req, cb) else QueryNode(s, req, cb, key, sent), r);
    hide Alloc, AllocRef;
  }

  lemma AllocNode(s: Net, n: Node, r: Ref)
    requires Shape(s) && r < |s.nodes| && AllocRef(s) != r
    ensures var s' := Alloc(s, n);
      Shape(s') && |s.nodes| <= |s'.nodes| && AllocRef(s) < |s'.nodes| && s'.nodes[r] == s.nodes[r]
  {}

  // A request that waits goes on waiting, or is called or cancelled by the step.
  lemma StepWaiter(s: State, e: Event, qretr: nat, r: Ref)
    requires Inv(s, qretr) && Enabled(s, e) && r in Waits(s.net) && Shape(Step(s, e, qretr).net)
    ensures r in Waits(Step(s, e, qretr).net) || Cancels(e, r) || (e.Call? && r == Callee(s.net, e.q))
  {
    hide Waits, AccountOk, TimersOk, TablesOk, FreeOk;
    match e
    case StartHit(_, _) =>
    case Start(key, cb, sent) =>
      StartFacts(s, key, qretr);
      hide StartQuery;
      if key in s.net.byRes {
        JoinWaits(s.net, key, s.account.accepted, cb, sent);
      } else {
        QueryWaits(s.net, key, s.account.accepted, cb, sent);
      }
    case Cancel(c, _) => CancelWaits(s.net, c);
    case Expire(c, sent) => TimerWaits(s.net, c, sent, qretr);
    case Response(id, rcode) => if id in s.net.byId { ResponseWaits(s, id, rcode, qretr); }
    case Call(p) => CallWaits(s.net, p);
    case CallCached(_) =>
    case Finish(c) => RecycleWaits(s.net, c);
    case Idle =>
  }

  lemma ResponseWaits(s: State, id: nat, rcode: nat, qretr: nat)
    requires Inv(s, qretr) && id in s.net.byId
    ensures s.net.byId[id] < |s.net.nodes| && Waits(Dequeue(s.net, s.net.byId[id], Answered(rcode))) == Waits(s.net)
  {
    DequeueWaits(s.net, s.net.byId[id], Answered(rcode));
  }

  // A cancel of a request that waits settles it.
  lemma CancelSettles(s: State, e: Event, qretr: nat, r: Ref)
    requires Inv(s, qretr) && Enabled(s, e) && Cancels(e, r) && r in Waits(s.net)
    ensures var req, a := s.net.nodes[r].req, Step(s, e, qretr).account;
      req < |a.fate| && (a.fate[req].Delivered? || a.fate[req].Silent?)
  {
    WaitsHolds(s.net, r);
    assert Waits(s.net)[r] < |s.account.fate|;
  }

  lemma CallSettles(s: State, q: Ref, qretr: nat)
    requires Inv(s, qretr) && CallsLeft(s.net, q) && Callee(s.net, q) in Waits(s.net)
    ensures var r := Callee(s.net, q);
      r < |s.net.nodes| && s.net.nodes[r].req < |CallAccount(s, q).fate| && CallAccount(s, q).fate[s.net.nodes[r].req].Delivered?
  {
    var r := Callee(s.net, q);
    WaitsHolds(s.net, r);
    assert Waits(s.net)[r] < |s.account.fate|;
  }

  lemma FatesStay(s: State, e: Event, qretr: nat, req: Req)
    requires Inv(s, qretr) && Enabled(s, e) && req < |s.account.fate|
    ensures var f, a := s.account.fate[req], Step(s, e, qretr).account;
      req < |a.fate| && (f.Delivered? || f.Silent? ==> a.fate[req] == f)
  {
    hide Inv, Enabled, Step;
    StepIsFinal(s, e, qretr);
  }

  lemma StepHolds(s: State, e: Event, qretr: nat, r: Ref, req: Req)
    requires Inv(s, qretr) && Enabled(s, e) && !LapsAt(s, e) && !Allocates(s, e, r) && Held(s, r, req)
    ensures Held(Step(s, e, qretr), r, req)
  {
    var s' := Step(s, e, qretr);
    StepInv(s, e, qretr);
    assert Shape(s'.net);
    assert e.Call? ==> CallsLeft(s.net, e.q) && s'.account == CallAccount(s, e.q);
    hide Inv, Enabled, Step, Waits, CallAccount, Callee, Onward, Shape, Allocates, CallsLeft;
    StepNode(s, e, qretr, r);
    FatesStay(s, e, qretr, req);
    if r in Waits(s.net) && r !in Waits(s'.net) {
      StepWaiter(s, e, qretr, r);
      if Cancels(e, r) {
        CancelSettles(s, e, qretr, r);
      } else {
        CallSettles(s, e.q, qretr);
      }
    }
  }

  lemma {:induction false} RunHolds(states: seq<State>, es: seq<Event>, qretr: nat, r: Ref, a: nat, i: nat)
    requires IsRun(states, es, qretr) && states[0] == Initial && HeldSince(states, es, r, a, i)
    ensures Held(states[i], r, states[a].account.accepted)
    decreases i
  {
    hide Inv, Enabled, Step, Held, GivesOut, Allocates;
    StartedInv(states, es, qretr, i - 1);
    assert StepAt(states, es, qretr, i - 1);
    if i == a + 1 {
      StartHolds(states[a], es[a], qretr, r);
    } else {
      RunHolds(states, es, qretr, r, a, i - 1);
      StepHolds(states[i - 1], es[i - 1], qretr, r, states[a].account.accepted);
    }
  }

  // ---------------------------------------------------------------- every node in use is held

  // The node is in use and has its callback.
  predicate InUse(s: Net, r: Ref) { Shape(s) && r < |s.nodes| && s.place[r] != Free && s.nodes[r].cb }

  lemma StartInUse(s: Net, key: Key, req: Req, cb: bool, sent: bool, r: Ref)
    requires Shape(s) && (key in s.byRes ==> s.byRes[key] < |s.nodes|) && InUse(StartQuery(s, key, req, cb, sent), r)
    ensures if r == AllocRef(s) then cb && (key in s.byRes || sent) else InUse(s, r)
  {
    var n := if key in s.byRes then ChildNode(req, cb) else QueryNode(s, req, cb, key, sent);
    AllocInUse(s, n, r);
    hide Alloc, AllocRef;
  }

  lemma AllocInUse(s: Net, n: Node, r: Ref)
    requires Shape(s)
    ensures var s' := Alloc(s, n);
      && Shape(s') && AllocRef(s) < |s'.nodes| && |s.nodes| <= |s'.nodes| && s'.nodes[AllocRef(s)] == n
      && (r != AllocRef(s) && r < |s'.nodes| ==> r < |s.nodes| && s'.nodes[r] == s.nodes[r] && s'.place[r] == s.place[r])
  {}

  // A node in use came into use by the step, or was in use before.
  lemma StepInUse(s: State, e: Event, qretr: nat, r: Ref)
    requires Shape(s.net) && TablesOk(s.net) && Enabled(s, e) && InUse(Step(s, e, qretr).net, r)
    ensures if Allocates(s, e, r) then GivesOut(s, e, r) else InUse(s.net, r)
  {
    match e
    case Start(key, cb, sent) =>
      hide StartQuery, InUse;
      StartInUse(s.net, key, s.account.accepted, cb, sent, r);
    case _ => OtherInUse(s, e, qretr, r);
  }

  lemma OtherInUse(s: State, e: Event, qretr: nat, r: Ref)
    requires Shape(s.net) && TablesOk(s.net) && Enabled(s, e) && !e.Start? && InUse(Step(s, e, qretr).net, r)
    ensures InUse(s.net, r)
  {
    assert e.Response? && e.id in s.net.byId ==> s.net.place[s.net.byId[e.id]] == Pending;
    hide TablesOk;
  }

  lemma RunInUse(states: seq<State>, es: seq<Event>, qretr: nat, i: nat, r: Ref)
    requires IsRun(states, es, qretr) && states[0] == Initial && i < |es| && InUse(states[i + 1].net, r)
    ensures if Allocates(states[i], es[i], r) then GivesOut(states[i], es[i], r) else InUse(states[i].net, r)
  {
    assert StepAt(states, es, qretr, i);
    RunNet(states, es, qretr, i);
    hide IsRun, Enabled, Step, InUse, GivesOut, Allocates;
    StepInUse(states[i], es[i], qretr, r);
  }

  lemma {:induction false} InUseIsHeld(states: seq<State>, es: seq<Event>, qretr: nat, i: nat, r: Ref) returns (a: nat)
    requires IsRun(states, es, qretr) && states[0] == Initial && i <= |es| && InUse(states[i].net, r)
    ensures HeldSince(states, es, r, a, i)
  {
    assert i > 0;
    RunInUse(states, es, qretr, i - 1, r);
    hide IsRun, GivesOut, Allocates, InUse;
    if Allocates(states[i - 1], es[i - 1], r) {
      a := i - 1;
    } else {
      a := InUseIsHeld(states, es, qretr, i - 1, r);
    }
  }

  // ---------------------------------------------------------------- what a cancel does to the holder

  ghost predicate IsTold(log: seq<Delivery>, req: Req) {
    exists k :: 0 <= k < |log| && log[k].req == req
  }

  lemma ToldAgain(log: seq<Delivery>, req: Req, status: Status)
    requires IsTold(log, req)
    ensures !NoneTwice(log + [Delivery(req, status)])
  {
    var k :| 0 <= k < |log| && log[k].req == req;
    var log' := log + [Delivery(req, status)];
    assert log'[k].req == req && log'[|log|].req == req;
  }

  // Its callback was made, or its node was recycled.
  predicate IsLate(s: Net, r: Ref)
    requires Shape(s) && r < |s.nodes|
  {
    Called(s, r) || s.place[r] == Free
  }

  ghost predicate CancelledIn(es: seq<Event>, r: Ref, a: nat, i: nat) {
    exists k :: a < k < i && k < |es| && Cancels(es[k], r)
  }

  // A callback is there until it is cancelled.
  lemma {:induction false} CallbackUnlessCancelled(states: seq<State>, es: seq<Event>, qretr: nat, r: Ref, a: nat, i: nat)
    requires IsRun(states, es, qretr) && states[0] == Initial && HeldSince(states, es, r, a, i)
    ensures r < |states[i].net.nodes| && (states[i].net.nodes[r].cb <==> !CancelledIn(es, r, a, i))
    decreases i
  {
    hide IsRun, Allocates, GivesOut, CancelledIn;
    CancelledLast(es, r, a, i);
    if i == a + 1 {
      RunGiven(states, es, qretr, a, r);
    } else {
      CallbackUnlessCancelled(states, es, qretr, r, a, i - 1);
      RunNode(states, es, qretr, i - 1, r);
    }
  }

  lemma CancelledLast(es: seq<Event>, r: Ref, a: nat, i: nat)
    requires a < i <= |es|
    ensures CancelledIn(es, r, a, i) <==> i > a + 1 && (CancelledIn(es, r, a, i - 1) || Cancels(es[i - 1], r))
  {}

  lemma RunNode(states: seq<State>, es: seq<Event>, qretr: nat, i: nat, r: Ref)
    requires IsRun(states, es, qretr) && states[0] == Initial && i < |es| && r < |states[i].net.nodes| && !Allocates(states[i], es[i], r)
    ensures r < |states[i + 1].net.nodes| && states[i + 1].net.nodes[r].cb == (states[i].net.nodes[r].cb && !Cancels(es[i], r))
  {
    assert StepAt(states, es, qretr, i);
    RunNet(states, es, qretr, i);
    RunNet(states, es, qretr, i + 1);
    hide IsRun, Enabled, Step, Allocates;
    StepNode(states[i], es[i], qretr, r);
  }

  lemma RunGiven(states: seq<State>, es: seq<Event>, qretr: nat, i: nat, r: Ref)
    requires IsRun(states, es, qretr) && states[0] == Initial && i < |es| && GivesOut(states[i], es[i], r)
    ensures r < |states[i + 1].net.nodes| && states[i + 1].net.nodes[r].cb
  {
    assert StepAt(states, es, qretr, i);
    RunNet(states, es, qretr, i);
    hide IsRun, Enabled, Step, GivesOut;
    GivenCallback(states[i], es[i], qretr, r);
  }

  lemma GivenCallback(s: State, e: Event, qretr: nat, r: Ref)
    requires Shape(s.net) && Enabled(s, e) && GivesOut(s, e, r)
    ensures r < |Step(s, e, qretr).net.nodes| && Step(s, e, qretr).net.nodes[r].cb
  {
    AllocInUse(s.net, if e.key in s.net.byRes then ChildNode(s.account.accepted, e.cb) else QueryNode(s.net, s.account.accepted, e.cb, e.key, e.sent), r);
    hide Alloc, AllocRef;
  }

  // Cancelling through a handle tells the request twice if and only if the cancel asks to notify, comes
  // after the callback, whether or not the node was recycled, and is the first through this handle.
  lemma CancelTellsTwiceExactly(states: seq<State>, es: seq<Event>, qretr: nat, r: Ref, a: nat, i: nat, notify: bool)
    requires IsRun(states, es, qretr) && states[0] == Initial && HeldSince(states, es, r, a, i)
    ensures Shape(states[i].net) && r < |states[i].net.nodes|
    ensures NoneTwice(CancelAccount(states[i], r, notify).log) <==> !(notify && IsLate(states[i].net, r) && !CancelledIn(es, r, a, i))
  {
    RunHolds(states, es, qretr, r, a, i);
    StartedInv(states, es, qretr, i);
    CallbackUnlessCancelled(states, es, qretr, r, a, i);
    hide CancelledIn, IsRun;
    HolderToldTwice(states[i], qretr, r, states[a].account.accepted, notify);
  }

  lemma HolderToldTwice(s: State, qretr: nat, r: Ref, req: Req, notify: bool)
    requires Inv(s, qretr) && Held(s, r, req)
    ensures NoneTwice(CancelAccount(s, r, notify).log) <==> !(notify && IsLate(s.net, r) && s.net.nodes[r].cb)
  {
    var a := s.account;
    AccountPartition(a, Waits(s.net));
    if !s.net.nodes[r].cb {
    } else if IsLate(s.net, r) {
      assert r !in Waits(s.net) && a.log[a.fate[req].index].req == req;
      if notify { ToldAgain(a.log, req, Cancelled); }
    } else {
      CancelAccountOk(s, r, notify);
      AccountPartition(CancelAccount(s, r, notify), Waits(CancelNode(s.net, r)));
    }
  }

  // A cancel through a handle: its request is never called back afterwards.
  lemma NothingAfterCancel(states: seq<State>, es: seq<Event>, qretr: nat, r: Ref, a: nat, i: nat, j: nat, k: nat)
    requires IsRun(states, es, qretr) && states[0] == Initial && HeldSince(states, es, r, a, i)
    requires i < j <= |es| && Cancels(es[i], r)
    requires |states[i + 1].account.log| <= k < |states[j].account.log|
    ensures states[j].account.log[k].req != states[a].account.accepted
  {
    var req := states[a].account.accepted;
    CancelledIsSettled(states, es, qretr, r, a, i);
    RunFates(states, es, qretr, i + 1, j, req);
    RunAccount(states, es, qretr, i + 1);
    RunAccount(states, es, qretr, j);
    SettledFateIsFinal(states[i + 1].account, Waits(states[i + 1].net), states[j].account, Waits(states[j].net), req, k);
  }

  lemma CancelledIsSettled(states: seq<State>, es: seq<Event>, qretr: nat, r: Ref, a: nat, i: nat)
    requires IsRun(states, es, qretr) && states[0] == Initial && HeldSince(states, es, r, a, i) && i < |es| && Cancels(es[i], r)
    ensures var req, s := states[a].account.accepted, states[i + 1].account;
      req < |s.fate| && (s.fate[req].Silent? || s.fate[req].Delivered?)
  {
    var req := states[a].account.accepted;
    RunHolds(states, es, qretr, r, a, i);
    StartedInv(states, es, qretr, i);
    assert StepAt(states, es, qretr, i);
    StepHolds(states[i], es[i], qretr, r, req);
    StepNode(states[i], es[i], qretr, r);
    hide Inv, Step, Enabled;
    if r in Waits(states[i + 1].net) { WaitsHolds(states[i + 1].net, r); }
  }

  // ---------------------------------------------------------------- when a node is given out again

  // A step takes at most the head of the free list, by a request, and adds only at its end.
  lemma StepFree(s: State, e: Event, qretr: nat, p: nat)
    requires Shape(s.net) && Enabled(s, e) && p < |s.net.free| && (e.Start? ==> p > 0)
    ensures var free, d := Step(s, e, qretr).net.free, if e.Start? then p - 1 else p;
      d < |free| && free[d] == s.net.free[p]
  {}

  // The nodes of a query become free together, its own after those of all who joined it.
  lemma ParentIsReusedLast(s: State, q: Ref, qretr: nat)
    requires Enabled(s, Finish(q))
    ensures var free, n := Step(s, Finish(q), qretr).net.free, |s.net.free|; var children := s.net.nodes[q].children;
      && |free| == n + |children| + 1 && free[..n] == s.net.free && free[|free| - 1] == q
      && forall i :: 0 <= i < |children| ==> free[n + i] == children[i]
  {}

  function Starts(es: seq<Event>, i: nat, j: nat): nat
    requires i <= j <= |es|
  {
    if i == j then 0 else Starts(es, i, j - 1) + if es[j - 1].Start? then 1 else 0
  }

  // Nodes are given out again in the order in which they became free: the one at place p of the free list not
  // before p more requests.
  lemma {:induction false} ReusedInOrder(states: seq<State>, es: seq<Event>, qretr: nat, i: nat, j: nat, p: nat)
    requires IsRun(states, es, qretr) && states[0] == Initial && i <= j <= |es| && p < |states[i].net.free| && Starts(es, i, j) <= p
    ensures var d := p - Starts(es, i, j); d < |states[j].net.free| && states[j].net.free[d] == states[i].net.free[p]
    decreases j
  {
    assert |states| == |es| + 1;
    hide IsRun, Enabled, Step;
    if i < j {
      ReusedInOrder(states, es, qretr, i, j - 1, p);
      RunStep(states, es, qretr, j - 1);
      StepFree(states[j - 1], es[j - 1], qretr, p - Starts(es, i, j - 1));
    }
  }

  lemma RunStep(states: seq<State>, es: seq<Event>, qretr: nat, i: nat)
    requires IsRun(states, es, qretr) && states[0] == Initial && i < |es|
    ensures Shape(states[i].net) && Enabled(states[i], es[i]) && states[i + 1] == Step(states[i], es[i], qretr)
  {
    hide Enabled, Step;
    assert StepAt(states, es, qretr, i);
    RunNet(states, es, qretr, i);
  }

  // ---------------------------------------------------------------- late cancels

  function Answer(key: Key, rcode: nat, next: nat): Net {
    Started(key).(nodes := [Started(key).nodes[0].(timer := false)], byId := map[], byRes := map[], place := [Notifying],
    flights := map[0 := Flight(next, Answered(rcode))])
  }

  function Recycled(key: Key): Net {
    Started(key).(nodes := [Started(key).nodes[0].(timer := false)], byId := map[], byRes := map[], place := [Free], free := [0])
  }

  function Reused(key: Key): Net {
    Net([Node(1, true, 2, key, 1, true, [], false)], map[2 := 0], map[key := 0], [], 3, map[], [Pending])
  }

  lemma AnswerSteps(key: Key, rcode: nat)
    ensures StartQuery(NoQueries, key, 0, true, true) == Started(key)
    ensures Shape(Started(key)) && Dequeue(Started(key), 0, Answered(rcode)) == Answer(key, rcode, 0)
    ensures CallNext(Answer(key, rcode, 0), 0) == Answer(key, rcode, 1)
    ensures Shape(Answer(key, rcode, 1)) && Recycle(Answer(key, rcode, 1), 0) == Recycled(key)
    ensures Shape(Recycled(key)) && StartQuery(Recycled(key), key, 1, true, true) == Reused(key)
  {
    JoinSteps(key);
    var s2, s4, s5 := Dequeue(Started(key), 0, Answered(rcode)), Recycle(Answer(key, rcode, 1), 0), StartQuery(Recycled(key), key, 1, true, true);
    assert s2.byId == map[] && s2.byRes == map[];
    assert s4.place == [Free] && s4.free == [0] && s4.flights == map[];
    assert s5.nodes == Reused(key).nodes && s5.free == [] && s5.place == [Pending];
  }

  // The accounts along the run below.
  function ToldOnce(rcode: nat): Account {
    Account(1, map[], [Delivery(0, Answered(rcode))], {}, [Delivered(0)])
  }

  function LateEvents(key: Key, rcode: nat): seq<Event> {
    [Start(key, true, true), Response(1, rcode), Call(0), Finish(0), Start(key, true, true)]
  }

  function LateStates(key: Key, rcode: nat): seq<State> {
    var waiting := Account(1, map[], [], {}, [Waiting(0)]);
    [Initial, State(Started(key), waiting), State(Answer(key, rcode, 0), waiting), State(Answer(key, rcode, 1), ToldOnce(rcode)),
     State(Recycled(key), ToldOnce(rcode)),
     State(Reused(key), ToldOnce(rcode).(accepted := 2, fate := [Delivered(0), Waiting(0)]))]
  }

  lemma LateRun(key: Key, rcode: nat, qretr: nat)
    ensures IsRun(LateStates(key, rcode), LateEvents(key, rcode), qretr)
  {
    AnswerSteps(key, rcode);
    hide StartQuery, Dequeue, CallNext, Recycle;
    var states, es := LateStates(key, rcode), LateEvents(key, rcode);
    assert states[0].account.fate + [Waiting(0)] == [Waiting(0)];
    assert StepAt(states, es, qretr, 0);
    assert StepAt(states, es, qretr, 1);
    assert StepAt(states, es, qretr, 2);
    assert StepAt(states, es, qretr, 3);
    assert StepAt(states, es, qretr, 4);
  }

  // A request is answered and told; a cancel then tells it again, before its node is recycled and after.
  lemma LateCancelTellsTwice(key: Key, rcode: nat, qretr: nat)
    ensures var states, es := LateStates(key, rcode), LateEvents(key, rcode);
      && IsRun(states, es, qretr) && states[0] == Initial && HeldSince(states, es, 0, 0, 3) && HeldSince(states, es, 0, 0, 4)
      && Called(states[3].net, 0) && states[4].net.place[0] == Free
      && CancelAccount(states[3], 0, true).log == CancelAccount(states[4], 0, true).log == [Delivery(0, Answered(rcode)), Delivery(0, Cancelled)]
  {
    LateRun(key, rcode, qretr);
  }

  // Once the node is given out again, a cancel through the old handle silences the new request.
  lemma StaleHandleSilencesAnother(key: Key, rcode: nat, qretr: nat)
    ensures var states, es := LateStates(key, rcode), LateEvents(key, rcode);
      && IsRun(states, es, qretr) && states[0] == Initial && HeldSince(states, es, 0, 0, 4) && HeldSince(states, es, 0, 4, 5)
      && 0 in Waits(states[5].net) && Waits(states[5].net)[0] == 1
      && CancelAccount(states[5], 0, false).silent == {1} && CancelAccount(states[5], 0, true).log[1] == Delivery(1, Cancelled)
  {
    LateRun(key, rcode, qretr);
  }
}
