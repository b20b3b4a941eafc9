/** The tables of the asynchronous DNS resolver.

    Every section the resolver runs while it holds its lock is one atomic step, and every
    application callback (made with the lock released) is a step of its own, so runs interleave
    the steps of any number of threads.  `Net` is what the resolver stores: the node memory, the
    two hash tables, the child lists, the free list and the last transaction id, plus the callbacks
    in progress. */
module ResolverNet {
  import opened DnsTypes

  type Ref = nat  // a query node; nodes come from the pool and are never returned to it
  type Req = nat  // an accepted request, numbered in order of acceptance

  datatype Status = Answered(rcode: nat) | TimedOut | Cancelled | FromCache(rcode: nat)

  datatype Delivery = Delivery(req: Req, status: Status)

  // cancelled is history: the application cancelled the request held here.
  datatype Node = Node(req: Req, cb: bool, id: nat, key: Key, transmitCnt: nat, timer: bool,
                       children: seq<Ref>, cancelled: bool)

  // A dequeued query whose callbacks are being made: the parent is call 0, child i is call i + 1.
  datatype Flight = Flight(next: nat, status: Status)

  // Where a node is; bookkeeping for the proofs.
  datatype Place = Pending | ChildOf(parent: Ref, index: nat) | Notifying | Free | Detached

  datatype Net = Net(
    nodes: seq<Node>,
    byId: map<nat, Ref>,
    byRes: map<Key, Ref>,
    free: seq<Ref>,
    lastId: nat,
    flights: map<Ref, Flight>,
    place: seq<Place>)

  const NoQueries := Net([], map[], map[], [], 1, map[], [])

  // Transaction ids are 16 bits wide and skip 0.
  function NextId(id: nat): nat {
    var n := (id + 1) % 0x10000;
    if n == 0 then 1 else n
  }

  function Max(a: nat, b: nat): nat { if a < b then b else a }

  // ---------------------------------------------------------------- steps on the tables

  // The callback of node r has been made already.
  predicate Called(s: Net, r: Ref)
    requires Shape(s) && r < |s.nodes|
  {
    match s.place[r]
    case Notifying => r in s.flights && s.flights[r].next > 0
    case ChildOf(p, i) => p in s.flights && s.flights[p].next > i + 1
    case _ => false
  }

  // The node is in use and its callback has not been made.
  predicate Outstanding(s: Net, r: Ref) {
    Shape(s) && r < |s.nodes| && s.place[r] != Free && s.place[r] != Detached && !Called(s, r)
  }

  // A cancel that makes no callback, or one that has not been made.
  predicate CancelSafe(s: Net, q: Ref, notify: bool) {
    Shape(s) && q < |s.nodes| && (notify && s.nodes[q].cb ==> Outstanding(s, q))
  }

  // Room for a node: the head of the free list, or a new one from the pool.
  function AllocRef(s: Net): Ref {
    if s.free != [] then s.free[0] else |s.nodes|
  }

  function TakeFree(s: Net, n: Node): Net
    requires Shape(s) && s.free != []
  {
    s.(nodes := s.nodes[s.free[0] := n], place := s.place[s.free[0] := Detached], free := s.free[1..])
  }

  function Grow(s: Net, n: Node): Net {
    s.(nodes := s.nodes + [n], place := s.place + [Detached])
  }

  function Alloc(s: Net, n: Node): Net
    requires Shape(s)
  {
    if s.free != [] then TakeFree(s, n) else Grow(s, n)
  }

  // A query for the same resource is pending: wait for it as its child.
  function Attach(s: Net, p: Ref, r: Ref): Net
    requires Shape(s) && p < |s.nodes| && r < |s.nodes|
  {
    s.(nodes := s.nodes[p := s.nodes[p].(children := s.nodes[p].children + [r])],
    place := s.place[r := ChildOf(p, |s.nodes[p].children|)])
  }

  // Enter a transmitted query into both tables.
  function Enter(s: Net, r: Ref): Net
    requires Shape(s) && r < |s.nodes|
  {
    s.(byId := s.byId[s.nodes[r].id := r], byRes := s.byRes[s.nodes[r].key := r], place := s.place[r := Pending])
  }

  // The query could not be sent: its node goes to the tail of the free list.
  function Release(s: Net, r: Ref): Net
    requires Shape(s) && r < |s.nodes|
  {
    s.(free := s.free + [r], place := s.place[r := Free])
  }

  function ChildNode(req: Req, cb: bool): Node {
    Node(req, cb, 0, Key(0, []), 0, false, [], false)
  }

  // A new query takes the next id, whether or not it can then be sent.
  function QueryNode(s: Net, req: Req, cb: bool, key: Key, sent: bool): Node {
    Node(req, cb, s.lastId, key, if sent then 1 else 0, sent, [], false)
  }

  // A new pending query would get an id that another pending query still uses.
  predicate Laps(s: Net, key: Key, sent: bool) {
    key !in s.byRes && sent && s.lastId in s.byId
  }

  function StartQuery(s: Net, key: Key, req: Req, cb: bool, sent: bool): Net
    requires Shape(s) && (key in s.byRes ==> s.byRes[key] < |s.nodes|)
  {
    var r := AllocRef(s);
    if key in s.byRes then
      Attach(Alloc(s, ChildNode(req, cb)), s.byRes[key], r)
    else
      var s1 := Alloc(s, QueryNode(s, req, cb, key, sent)).(lastId := NextId(s.lastId));
      if sent then Enter(s1, r) else Release(s1, r)
  }

  // Filling in a node's own fields moves nothing.
  function Touch(s: Net, q: Ref, n: Node): Net
    requires q < |s.nodes|
  {
    s.(nodes := s.nodes[q := n])
  }

  // Cancelling only stops the node's own timer and drops its callback; it stays where it is.
  function CancelNode(s: Net, q: Ref): Net
    requires q < |s.nodes|
  {
    Touch(s, q, s.nodes[q].(timer := false, cb := false, cancelled := true))
  }

  // Take q out of both tables; its callbacks follow with the lock released.
  function Dequeue(s: Net, q: Ref, status: Status): Net
    requires Shape(s) && q < |s.nodes|
  {
    s.(nodes := s.nodes[q := s.nodes[q].(timer := false)],
    byId := s.byId - {s.nodes[q].id},
    byRes := s.byRes - {s.nodes[q].key},
    flights := s.flights[q := Flight(0, status)],
    place := s.place[q := Notifying])
  }

  // The timer of q fires: retransmit while the count allows and the transmission works.
  function TimerFires(s: Net, q: Ref, sent: bool, qretr: nat): Net
    requires Shape(s) && q < |s.nodes|
  {
    if s.nodes[q].transmitCnt < qretr && sent then
      Touch(s, q, s.nodes[q].(transmitCnt := s.nodes[q].transmitCnt + 1))
    else
      Dequeue(s, q, TimedOut)
  }

  predicate CallsLeft(s: Net, q: Ref) {
    q in s.flights && q < |s.nodes| && s.flights[q].next <= |s.nodes[q].children|
  }

  function Callee(s: Net, q: Ref): Ref
    requires CallsLeft(s, q)
  {
    if s.flights[q].next == 0 then q else s.nodes[q].children[s.flights[q].next - 1]
  }

  function CallNext(s: Net, q: Ref): Net
    requires q in s.flights
  {
    s.(flights := s.flights[q := s.flights[q].(next := s.flights[q].next + 1)])
  }

  predicate AllCalled(s: Net, q: Ref) {
    q in s.flights && q < |s.nodes| && s.flights[q].next == |s.nodes[q].children| + 1
  }

  function Recycle(s: Net, q: Ref): Net
    requires Shape(s) && q < |s.nodes|
  {
    var freed := s.nodes[q].children + [q];
    s.(flights := s.flights - {q},
    free := s.free + freed,
    place := seq(|s.place|, i requires 0 <= i < |s.place| => if i in freed then Free else s.place[i]))
  }

  // ---------------------------------------------------------------- the structural invariant

  predicate Shape(s: Net) {
    && |s.place| == |s.nodes|
    && (forall i :: 0 <= i < |s.free| ==> s.free[i] < |s.nodes|)
  }

  ghost predicate TablesOk(s: Net)
    requires Shape(s)
  {
    && 1 <= s.lastId < 0x10000
    && (forall i <- s.byId :: 1 <= i < 0x10000 && s.byId[i] < |s.nodes| && s.place[s.byId[i]] == Pending && s.nodes[s.byId[i]].id == i)
    && (forall k <- s.byRes :: s.byRes[k] < |s.nodes| && s.place[s.byRes[k]] == Pending && s.nodes[s.byRes[k]].key == k)
    && (forall r: Ref {:trigger s.place[r]} :: r < |s.nodes| && s.place[r] == Pending ==>
          && s.nodes[r].id in s.byId && s.byId[s.nodes[r].id] == r
          && s.nodes[r].key in s.byRes && s.byRes[s.nodes[r].key] == r)
  }

  ghost predicate FlightsOk(s: Net)
    requires Shape(s)
  {
    && (forall r <- s.flights :: r < |s.nodes| && s.place[r] == Notifying && s.flights[r].next <= |s.nodes[r].children| + 1)
    && (forall r: Ref {:trigger s.place[r]} :: r < |s.nodes| && s.place[r] == Notifying ==> r in s.flights)
  }

  predicate IsParent(s: Net, p: Ref)
    requires Shape(s)
  {
    p < |s.nodes| && (s.place[p] == Pending || s.place[p] == Notifying)
  }

  ghost predicate ChildrenOk(s: Net)
    requires Shape(s)
  {
    && (forall p: Ref, i {:trigger s.nodes[p].children[i]} :: IsParent(s, p) && 0 <= i < |s.nodes[p].children| ==>
          s.nodes[p].children[i] < |s.nodes| && s.place[s.nodes[p].children[i]] == ChildOf(p, i))
    && (forall r: Ref {:trigger s.place[r]} :: r < |s.nodes| && s.place[r].ChildOf? ==>
          && IsParent(s, s.place[r].parent)
          && s.place[r].index < |s.nodes[s.place[r].parent].children|
          && s.nodes[s.place[r].parent].children[s.place[r].index] == r)
  }

  ghost predicate FreeOk(s: Net)
    requires Shape(s)
  {
    && (forall i :: 0 <= i < |s.free| ==> s.place[s.free[i]] == Free)
    && (forall i, j :: 0 <= i < j < |s.free| ==> s.free[i] != s.free[j])
    && (forall r: Ref {:trigger s.place[r]} :: r < |s.nodes| && s.place[r] == Free ==> r in s.free)
  }

  ghost predicate TimersOk(s: Net, qretr: nat)
    requires Shape(s)
  {
    forall r: Ref {:trigger s.place[r]} :: r < |s.nodes| && s.place[r] == Pending ==>
      && (s.nodes[r].timer <==> !s.nodes[r].cancelled)
      && 1 <= s.nodes[r].transmitCnt <= Max(1, qretr)
  }

  ghost predicate NetOk(s: Net, qretr: nat) {
    Shape(s) && TablesOk(s) && FlightsOk(s) && ChildrenOk(s) && FreeOk(s) && TimersOk(s, qretr)
  }

  lemma NoQueriesOk(qretr: nat)
    ensures NetOk(NoQueries, qretr)
  {}

  // For the steps that move nodes the two halves of the invariant are proved apart: the indexes
  // (tables and free list), then the links (callbacks in progress and child lists).

  lemma TakeFreeTables(s: Net, n: Node)
    requires Shape(s) && s.free != [] && TablesOk(s) && s.place[s.free[0]] == Free
    ensures Shape(TakeFree(s, n)) && TablesOk(TakeFree(s, n))
  {}

  lemma TakeFreeFree(s: Net, n: Node)
    requires Shape(s) && s.free != [] && FreeOk(s)
    ensures Shape(TakeFree(s, n)) && FreeOk(TakeFree(s, n))
  {}

  lemma TakeFreeIndexes(s: Net, n: Node)
    requires Shape(s) && TablesOk(s) && FreeOk(s) && s.free != []
    ensures Shape(TakeFree(s, n)) && TablesOk(TakeFree(s, n)) && FreeOk(TakeFree(s, n))
  {
    assert s.place[s.free[0]] == Free;
    hide TablesOk, FreeOk;
    TakeFreeTables(s, n);
    TakeFreeFree(s, n);
  }

  lemma TakeFreeLinks(s: Net, n: Node)
    requires Shape(s) && FlightsOk(s) && ChildrenOk(s) && s.free != [] && s.place[s.free[0]] == Free
    ensures Shape(TakeFree(s, n)) && FlightsOk(TakeFree(s, n)) && ChildrenOk(TakeFree(s, n))
  {}

  lemma GrowIndexes(s: Net, n: Node)
    requires Shape(s) && TablesOk(s) && FreeOk(s)
    ensures Shape(Grow(s, n)) && TablesOk(Grow(s, n)) && FreeOk(Grow(s, n))
  {}

  lemma GrowLinks(s: Net, n: Node)
    requires Shape(s) && FlightsOk(s) && ChildrenOk(s)
    ensures Shape(Grow(s, n)) && FlightsOk(Grow(s, n)) && ChildrenOk(Grow(s, n))
  {}

  lemma AllocOk(s: Net, n: Node, qretr: nat)
    requires NetOk(s, qretr)
    ensures var s' := Alloc(s, n); var r := AllocRef(s);
      NetOk(s', qretr) && r < |s'.nodes| && s'.nodes[r] == n && s'.place[r] == Detached
  {
    if s.free != [] {
      TakeFreeIndexes(s, n);
      TakeFreeLinks(s, n);
    } else {
      GrowIndexes(s, n);
      GrowLinks(s, n);
    }
  }

  lemma AttachTables(s: Net, p: Ref, r: Ref)
    requires Shape(s) && p < |s.nodes| && r < |s.nodes| && s.place[p] == Pending && s.place[r] == Detached && TablesOk(s)
    ensures Shape(Attach(s, p, r)) && TablesOk(Attach(s, p, r))
  {}

  lemma AttachFree(s: Net, p: Ref, r: Ref)
    requires Shape(s) && p < |s.nodes| && r < |s.nodes| && s.place[p] == Pending && s.place[r] == Detached && FreeOk(s)
    ensures Shape(Attach(s, p, r)) && FreeOk(Attach(s, p, r))
  {}

  lemma AttachIndexes(s: Net, p: Ref, r: Ref)
    requires Shape(s) && TablesOk(s) && FreeOk(s)
    requires p < |s.nodes| && r < |s.nodes| && s.place[p] == Pending && s.place[r] == Detached
    ensures Shape(Attach(s, p, r)) && TablesOk(Attach(s, p, r)) && FreeOk(Attach(s, p, r))
  {
    hide TablesOk, FreeOk;
    AttachTables(s, p, r);
    AttachFree(s, p, r);
  }

  lemma AttachLinks(s: Net, p: Ref, r: Ref)
    requires Shape(s) && FlightsOk(s) && ChildrenOk(s)
    requires p < |s.nodes| && r < |s.nodes| && s.place[p] == Pending && s.place[r] == Detached
    ensures Shape(Attach(s, p, r)) && FlightsOk(Attach(s, p, r)) && ChildrenOk(Attach(s, p, r))
  {
    hide FlightsOk, ChildrenOk;
    AttachFlights(s, p, r);
    AttachChildren(s, p, r);
  }

  lemma AttachFlights(s: Net, p: Ref, r: Ref)
    requires Shape(s) && FlightsOk(s) && p < |s.nodes| && r < |s.nodes| && s.place[p] == Pending && s.place[r] == Detached
    ensures Shape(Attach(s, p, r)) && FlightsOk(Attach(s, p, r))
  {}

  lemma AttachChildren(s: Net, p: Ref, r: Ref)
    requires Shape(s) && ChildrenOk(s) && p < |s.nodes| && r < |s.nodes| && s.place[p] == Pending && s.place[r] == Detached
    ensures Shape(Attach(s, p, r)) && ChildrenOk(Attach(s, p, r))
  {}

  lemma AttachOk(s: Net, p: Ref, r: Ref, qretr: nat)
    requires NetOk(s, qretr) && p < |s.nodes| && r < |s.nodes| && s.place[p] == Pending && s.place[r] == Detached
    ensures NetOk(Attach(s, p, r), qretr)
  {
    hide TablesOk, FlightsOk, ChildrenOk, FreeOk;
    AttachIndexes(s, p, r);
    AttachLinks(s, p, r);
  }

  // A node just filled in for a transmitted query, with an id and a key no pending query has.
  predicate ReadyToEnter(s: Net, r: Ref) {
    && Shape(s) && r < |s.nodes| && s.place[r] == Detached
    && s.nodes[r].key !in s.byRes && s.nodes[r].id !in s.byId && 1 <= s.nodes[r].id < 0x10000
    && s.nodes[r].children == [] && s.nodes[r].timer && !s.nodes[r].cancelled
    && s.nodes[r].transmitCnt == 1
  }

  lemma EnterTables(s: Net, r: Ref)
    requires ReadyToEnter(s, r) && TablesOk(s)
    ensures Shape(Enter(s, r)) && TablesOk(Enter(s, r))
  {}

  lemma EnterFree(s: Net, r: Ref)
    requires ReadyToEnter(s, r) && FreeOk(s)
    ensures Shape(Enter(s, r)) && FreeOk(Enter(s, r))
  {}

  lemma EnterIndexes(s: Net, r: Ref)
    requires ReadyToEnter(s, r) && TablesOk(s) && FreeOk(s)
    ensures Shape(Enter(s, r)) && TablesOk(Enter(s, r)) && FreeOk(Enter(s, r))
  {
    hide TablesOk, FreeOk;
    EnterTables(s, r);
    EnterFree(s, r);
  }

  lemma EnterLinks(s: Net, r: Ref)
    requires ReadyToEnter(s, r) && FlightsOk(s) && ChildrenOk(s)
    ensures Shape(Enter(s, r)) && FlightsOk(Enter(s, r)) && ChildrenOk(Enter(s, r))
  {}

  lemma EnterOk(s: Net, r: Ref, qretr: nat)
    requires NetOk(s, qretr) && ReadyToEnter(s, r)
    ensures NetOk(Enter(s, r), qretr)
  {
    hide TablesOk, FlightsOk, ChildrenOk, FreeOk;
    EnterIndexes(s, r);
    EnterLinks(s, r);
  }

  lemma ReleaseIndexes(s: Net, r: Ref)
    requires Shape(s) && TablesOk(s) && FreeOk(s) && r < |s.nodes| && s.place[r] == Detached
    ensures Shape(Release(s, r)) && TablesOk(Release(s, r)) && FreeOk(Release(s, r))
  {}

  lemma ReleaseLinks(s: Net, r: Ref)
    requires Shape(s) && FlightsOk(s) && ChildrenOk(s) && r < |s.nodes| && s.place[r] == Detached
    ensures Shape(Release(s, r)) && FlightsOk(Release(s, r)) && ChildrenOk(Release(s, r))
  {}

  lemma ReleaseOk(s: Net, r: Ref, qretr: nat)
    requires NetOk(s, qretr) && r < |s.nodes| && s.place[r] == Detached
    ensures NetOk(Release(s, r), qretr)
  {
    hide TablesOk, FlightsOk, ChildrenOk, FreeOk;
    ReleaseIndexes(s, r);
    ReleaseLinks(s, r);
  }

  lemma SetIdOk(s: Net, id: nat, qretr: nat)
    requires NetOk(s, qretr) && 1 <= id < 0x10000
    ensures NetOk(s.(lastId := id), qretr)
  {}

  lemma StartQueryOk(s: Net, key: Key, req: Req, cb: bool, sent: bool, qretr: nat)
    requires NetOk(s, qretr) && !Laps(s, key, sent)
    ensures NetOk(StartQuery(s, key, req, cb, sent), qretr)
  {
    var r := AllocRef(s);
    hide FlightsOk, ChildrenOk, FreeOk, TimersOk;
    if key in s.byRes {
      AllocOk(s, ChildNode(req, cb), qretr);
      AttachOk(Alloc(s, ChildNode(req, cb)), s.byRes[key], r, qretr);
    } else {
      var n := QueryNode(s, req, cb, key, sent);
      AllocOk(s, n, qretr);
      var s1 := Alloc(s, n).(lastId := NextId(s.lastId));
      SetIdOk(Alloc(s, n), NextId(s.lastId), qretr);
      if sent {
        EnterOk(s1, r, qretr);
      } else {
        ReleaseOk(s1, r, qretr);
      }
    }
  }

  lemma TouchIndexes(s: Net, q: Ref, n: Node)
    requires Shape(s) && TablesOk(s) && FreeOk(s) && q < |s.nodes| && n.id == s.nodes[q].id && n.key == s.nodes[q].key
    ensures Shape(Touch(s, q, n)) && TablesOk(Touch(s, q, n)) && FreeOk(Touch(s, q, n))
  {}

  lemma TouchLinks(s: Net, q: Ref, n: Node)
    requires Shape(s) && FlightsOk(s) && ChildrenOk(s) && q < |s.nodes| && n.children == s.nodes[q].children
    ensures Shape(Touch(s, q, n)) && FlightsOk(Touch(s, q, n)) && ChildrenOk(Touch(s, q, n))
  {}

  lemma TouchOk(s: Net, q: Ref, n: Node, qretr: nat)
    requires NetOk(s, qretr) && q < |s.nodes|
    requires n.id == s.nodes[q].id && n.key == s.nodes[q].key && n.children == s.nodes[q].children
    requires s.place[q] == Pending ==> (n.timer <==> !n.cancelled) && 1 <= n.transmitCnt <= Max(1, qretr)
    ensures NetOk(Touch(s, q, n), qretr)
  {
    TouchIndexes(s, q, n);
    TouchLinks(s, q, n);
  }

  lemma CancelNodeOk(s: Net, q: Ref, qretr: nat)
    requires NetOk(s, qretr) && q < |s.nodes|
    ensures NetOk(CancelNode(s, q), qretr)
  {
    TouchOk(s, q, s.nodes[q].(timer := false, cb := false, cancelled := true), qretr);
  }

  lemma DequeueIndexes(s: Net, q: Ref, status: Status)
    requires Shape(s) && TablesOk(s) && FreeOk(s) && q < |s.nodes| && s.place[q] == Pending
    ensures var s' := Dequeue(s, q, status); Shape(s') && TablesOk(s') && FreeOk(s')
  {}

  lemma DequeueLinks(s: Net, q: Ref, status: Status)
    requires Shape(s) && FlightsOk(s) && ChildrenOk(s) && q < |s.nodes| && s.place[q] == Pending
    ensures var s' := Dequeue(s, q, status); Shape(s') && FlightsOk(s') && ChildrenOk(s')
  {}

  lemma DequeueOk(s: Net, q: Ref, status: Status, qretr: nat)
    requires NetOk(s, qretr) && q < |s.nodes| && s.place[q] == Pending
    ensures NetOk(Dequeue(s, q, status), qretr)
  {
    hide TablesOk, FlightsOk, ChildrenOk, FreeOk;
    DequeueIndexes(s, q, status);
    DequeueLinks(s, q, status);
  }

  lemma TimerFiresOk(s: Net, q: Ref, sent: bool, qretr: nat)
    requires NetOk(s, qretr) && q < |s.nodes| && s.place[q] == Pending && s.nodes[q].timer
    ensures NetOk(TimerFires(s, q, sent, qretr), qretr)
  {
    hide TablesOk, FlightsOk, ChildrenOk, FreeOk;
    if s.nodes[q].transmitCnt < qretr && sent {
      var n := s.nodes[q].(transmitCnt := s.nodes[q].transmitCnt + 1);
      assert 1 <= n.transmitCnt <= Max(1, qretr) && n.timer && !n.cancelled;
      TouchOk(s, q, n, qretr);
      assert TimerFires(s, q, sent, qretr) == Touch(s, q, n);
    } else {
      DequeueOk(s, q, TimedOut, qretr);
      assert TimerFires(s, q, sent, qretr) == Dequeue(s, q, TimedOut);
    }
  }

  lemma CallNextOk(s: Net, q: Ref, qretr: nat)
    requires NetOk(s, qretr) && CallsLeft(s, q)
    ensures NetOk(CallNext(s, q), qretr)
  {}

  lemma RecycleTables(s: Net, q: Ref)
    requires Shape(s) && AllCalled(s, q) && TablesOk(s) && FlightsOk(s) && ChildrenOk(s)
    ensures Shape(Recycle(s, q)) && TablesOk(Recycle(s, q))
  {}

  lemma RecycleFree(s: Net, q: Ref)
    requires Shape(s) && AllCalled(s, q) && FreeOk(s) && FlightsOk(s) && ChildrenOk(s)
    ensures Shape(Recycle(s, q)) && FreeOk(Recycle(s, q))
  {}

  lemma RecycleIndexes(s: Net, q: Ref)
    requires Shape(s) && TablesOk(s) && FlightsOk(s) && ChildrenOk(s) && FreeOk(s) && AllCalled(s, q)
    ensures Shape(Recycle(s, q)) && TablesOk(Recycle(s, q)) && FreeOk(Recycle(s, q))
  {
    hide TablesOk, FreeOk;
    RecycleTables(s, q);
    RecycleFree(s, q);
  }

  lemma RecycleLinks(s: Net, q: Ref)
    requires Shape(s) && FlightsOk(s) && ChildrenOk(s) && AllCalled(s, q)
    ensures Shape(Recycle(s, q)) && FlightsOk(Recycle(s, q)) && ChildrenOk(Recycle(s, q))
  {}

  lemma RecycleOk(s: Net, q: Ref, qretr: nat)
    requires NetOk(s, qretr) && AllCalled(s, q)
    ensures NetOk(Recycle(s, q), qretr)
  {
    hide TablesOk, FreeOk;
    RecycleIndexes(s, q);
    RecycleLinks(s, q);
  }
}
