/** The resolver object: the critical sections of resolver.c as methods over its fields. Each method
    is proved to be the step of the same name in `ResolverRuns`. */
module Resolver {
  import opened Options
  import opened DnsTypes
  import opened ResolverNet
  import opened ResolverRuns

  class Resolver {
    const qretrCount: nat
    var nodes: seq<Node>           // memory of query nodes
    var queryById: map<nat, Ref>   // hquerybyid
    var queryByRes: map<Key, Ref>  // hquerybyres
    var freeNodes: seq<Ref>        // query_free_nodes
    var lastId: nat
    var flights: map<Ref, Flight>  // queries whose callbacks are being made by some thread
    var accepted: nat              // requests accepted so far; numbers the next one
    ghost var place: seq<Place>
    ghost var account: Account

    ghost function View(): State
      reads this
    {
      State(Net(nodes, queryById, queryByRes, freeNodes, lastId, flights, place), account)
    }

    ghost predicate Valid()
      reads this
    {
      Inv(View(), qretrCount) && accepted == account.accepted
    }

    constructor (qretrCount: nat)
      ensures this.qretrCount == qretrCount && View() == Initial && Valid()
    {
      this.qretrCount := qretrCount;
      nodes, queryById, queryByRes, freeNodes, lastId, flights := [], map[], map[], [], 1, map[];
      accepted, place, account := 0, [], NoRequests;
      new;
      InitialInv(qretrCount);
    }

    // alloc_qnode
    method AllocNode(n: Node) returns (r: Ref)
      requires Shape(View().net)
      modifies this
      ensures r == old(AllocRef(View().net)) && View().net == old(Alloc(View().net, n)) && account == old(account) && accepted == old(accepted)
    {
      if freeNodes != [] {
        r := freeNodes[0];
        freeNodes := freeNodes[1..];
        nodes := nodes[r := n];
        place := place[r := Detached];
      } else {
        r := |nodes|;
        nodes := nodes + [n];
        place := place + [Detached];
      }
    }

    // A query for the same resource is pending: add a child query to it.
    method JoinPending(p: Ref, cb: bool) returns (child: Ref)
      requires Shape(View().net) && p < |nodes|
      modifies this
      ensures child == old(AllocRef(View().net))
      ensures View() == old(View().(net := Attach(Alloc(View().net, ChildNode(accepted, cb)), p, AllocRef(View().net))))
      ensures accepted == old(accepted)
    {
      child := AllocNode(Node(accepted, cb, 0, Key(0, []), 0, false, [], false));
      place := place[child := ChildOf(p, |nodes[p].children|)];
      nodes := nodes[p := nodes[p].(children := nodes[p].children + [child])];
    }

    // There is none: take the next id, transmit, and enter the query in both tables.
    method SendNew(key: Key, cb: bool, sent: bool) returns (query: Option<Ref>)
      requires Shape(View().net) && key !in queryByRes && 1 <= lastId < 0x10000
      modifies this
      ensures View() == old(View().(net := ResolverNet.StartQuery(View().net, key, accepted, cb, sent)))
      ensures accepted == old(accepted) && query == if sent then Some(old(AllocRef(View().net))) else None
    {
      var id := lastId;
      var q := AllocNode(Node(accepted, cb, id, key, if sent then 1 else 0, sent, [], false));
      lastId := if id + 1 == 0x10000 then 1 else id + 1;
      if sent {
        queryById := queryById[id := q];
        queryByRes := queryByRes[key := q];
        place := place[q := Pending];
        query := Some(q);
      } else {
        freeNodes := freeNodes + [q];
        place := place[q := Free];
        query := None;
      }
    }

    // The part of pj_dns_resolver_start_query after the cache lookup failed.
    method StartQuery(key: Key, cb: bool, sent: bool) returns (query: Option<Ref>)
      requires Valid()
      modifies this
      ensures View() == old(Step(View(), Start(key, cb, sent), qretrCount))
      ensures !old(Laps(View().net, key, sent)) ==> Valid()
      ensures query == if key in old(queryByRes) || sent then Some(old(AllocRef(View().net))) else None
    {
      ghost var was := View();
      if key in queryByRes {
        var child := JoinPending(queryByRes[key], cb);
        query := Some(child);
      } else {
        query := SendNew(key, cb, sent);
      }
      if query.Some? {
        account := Accept(account, cb, AllocRef(was.net));
        accepted := accepted + 1;
      }
      assert View() == Step(was, Start(key, cb, sent), qretrCount);
      if !Laps(was.net, key, sent) {
        StepInv(was, Start(key, cb, sent), qretrCount);
      }
    }

    // pj_dns_resolver_cancel_query
    method DropCallback(q: Ref, notify: bool)
      requires Shape(View().net) && q < |nodes|
      modifies this
      ensures View() == old(State(CancelNode(View().net, q), CancelAccount(View(), q, notify))) && accepted == old(accepted)
    {
      account := CancelAccount(View(), q, notify);
      nodes := nodes[q := nodes[q].(timer := false, cb := false, cancelled := true)];
    }

    method CancelQuery(q: Ref, notify: bool)
      requires Valid() && q < |nodes|
      modifies this
      ensures View() == old(State(CancelNode(View().net, q), CancelAccount(View(), q, notify))) && accepted == old(accepted)
      ensures old(CancelSafe(View().net, q, notify)) ==> Valid() && View() == old(Step(View(), Cancel(q, notify), qretrCount))
    {
      ghost var was := View();
      assert Shape(was.net);
      hide Inv;
      DropCallback(q, notify);
      if CancelSafe(was.net, q, notify) {
        assert View() == Step(was, Cancel(q, notify), qretrCount);
        StepInv(was, Cancel(q, notify), qretrCount);
      }
    }

    method DequeueQuery(q: Ref, status: Status)
      requires Shape(View().net) && q < |nodes|
      modifies this
      ensures View() == old(View().(net := Dequeue(View().net, q, status))) && accepted == old(accepted)
    {
      queryById := queryById - {nodes[q].id};
      queryByRes := queryByRes - {nodes[q].key};
      nodes := nodes[q := nodes[q].(timer := false)];
      flights := flights[q := Flight(0, status)];
      place := place[q := Notifying];
    }

    // on_timeout up to the first callback
    method OnTimeout(q: Ref, sent: bool)
      requires Valid() && Enabled(View(), Expire(q, sent))
      modifies this
      ensures Valid() && View() == old(Step(View(), Expire(q, sent), qretrCount))
    {
      hide Inv;
      ghost var was := View();
      if nodes[q].transmitCnt < qretrCount && sent {
        nodes := nodes[q := nodes[q].(transmitCnt := nodes[q].transmitCnt + 1)];
      } else {
        DequeueQuery(q, TimedOut);
      }
      StepInv(was, Expire(q, sent), qretrCount);
    }

    // on_read_complete up to the first callback, for a packet that parsed
    method OnReadComplete(id: nat, rcode: nat)
      requires Valid()
      modifies this
      ensures Valid() && View() == old(Step(View(), Response(id, rcode), qretrCount))
    {
      ghost var was := View();
      if id in queryById {
        DequeueQuery(queryById[id], Answered(rcode));
      }
      StepInv(was, Response(id, rcode), qretrCount);
    }

    // One application callback, made without the lock; it tells what was delivered, if anything.
    method Notify(q: Ref) returns (d: Option<Delivery>)
      requires CallsLeft(View().net, q) && Callee(View().net, q) < |nodes|
      modifies this
      ensures View() == old(State(ResolverNet.CallNext(View().net, q), CallAccount(View(), q))) && accepted == old(accepted)
      ensures var n := old(nodes[Callee(View().net, q)]);
        d == if n.cb then Some(Delivery(n.req, old(flights[q].status))) else None
    {
      account := CallAccount(View(), q);
      var f := flights[q];
      var callee := if f.next == 0 then q else nodes[q].children[f.next - 1];
      d := if nodes[callee].cb then Some(Delivery(nodes[callee].req, f.status)) else None;
      flights := flights[q := f.(next := f.next + 1)];
    }

    method CallNext(q: Ref) returns (d: Option<Delivery>)
      requires Valid() && Enabled(View(), Call(q))
      modifies this
      ensures Valid() && View() == old(Step(View(), Call(q), qretrCount))
      ensures account.log == old(account.log) + if d.Some? then [d.value] else []
    {
      ghost var was := View();
      CallLogs(was, q, qretrCount);
      d := Notify(q);
      assert View() == Step(was, Call(q), qretrCount);
      StepInv(was, Call(q), qretrCount);
    }

    // The recycling loop at the end of on_timeout and on_read_complete
    method RecycleNodes(q: Ref)
      requires Valid() && Enabled(View(), Finish(q))
      modifies this
      ensures Valid() && View() == old(Step(View(), Finish(q), qretrCount))
    {
      hide Inv;
      ghost var was := View();
      var children := nodes[q].children;
      var i := 0;
      while i < |children|
        invariant 0 <= i <= |children|
        invariant freeNodes == was.net.free + children[..i]
        invariant accepted == was.account.accepted && View() == was.(net := was.net.(free := freeNodes))
      {
        freeNodes := freeNodes + [children[i]];
        i := i + 1;
      }
      freeNodes := freeNodes + [q];
      flights := flights - {q};
      place := ResolverNet.Recycle(was.net, q).place;
      assert freeNodes == was.net.free + (children + [q]);
      StepInv(was, Finish(q), qretrCount);
    }
  }
}
