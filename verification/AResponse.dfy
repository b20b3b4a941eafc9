/** Reading the addresses out of a response to an A query (pj_dns_parse_a_response in resolver.c), which
    may lead through CNAME records. */
module AResponse {
  import opened Bytes
  import opened DnsTypes
  import DnsParser

  const MAX_SEARCH := 20
  const BUF_SIZE := 128
  const MAX_IP := 8

  datatype Error = Rcode(code: nat) | InAnswer | NoAnswerRec | NameTooLong

  datatype Record = Record(name: Name, alias: Name, addrs: seq<seq<byte>>)

  datatype Response = Failed(error: Error) | Found(rec: Record)

  // The data of a record is of the kind its type says.
  predicate Typed(r: RR) {
    (r.rtype == TYPE_A ==> r.rdata.Address?) && (r.rtype == TYPE_CNAME ==> r.rdata.Target?)
  }

  predicate AllTyped(ans: seq<RR>) { forall i :: 0 <= i < |ans| ==> Typed(ans[i]) }

  // The first answer of a name, or their number.
  function First(ans: seq<RR>, name: Name, i: nat): (k: nat)
    requires i <= |ans|
    ensures i <= k <= |ans| && (k < |ans| ==> SameName(ans[k].name, name)) && forall j :: i <= j < k ==> !SameName(ans[j].name, name)
    decreases |ans| - i
  {
    if i == |ans| || SameName(ans[i].name, name) then i else First(ans, name, i + 1)
  }

  // ---------------------------------------------------------------- chains of CNAME records

  function Target(ans: seq<RR>, i: nat): Name
    requires AllTyped(ans) && i < |ans| && ans[i].rtype == TYPE_CNAME
  {
    ans[i].rdata.name
  }

  // Record i is an alias whose name's first answer is record j.
  predicate Link(ans: seq<RR>, i: nat, j: nat)
    requires AllTyped(ans)
  {
    i < |ans| && j < |ans| && ans[i].rtype == TYPE_CNAME && j == First(ans, Target(ans, i), 0)
  }

  // path leads through CNAME records, each time to the first answer of the name that the record gives.
  predicate IsPath(ans: seq<RR>, path: seq<nat>)
    requires AllTyped(ans)
  {
    path != [] && path[0] < |ans| && forall k {:trigger path[k]} :: 1 <= k < |path| ==> Link(ans, path[k - 1], path[k])
  }

  // A path that begins at the first answer of name.
  predicate IsChain(ans: seq<RR>, name: Name, path: seq<nat>)
    requires AllTyped(ans)
  {
    IsPath(ans, path) && path[0] == First(ans, name, 0)
  }

  function Last(path: seq<nat>): nat
    requires path != []
  {
    path[|path| - 1]
  }

  lemma LastInRange(ans: seq<RR>, path: seq<nat>)
    requires AllTyped(ans) && IsPath(ans, path)
    ensures Last(path) < |ans|
  {
    if |path| > 1 { assert Link(ans, path[|path| - 2], path[|path| - 1]); }
  }

  lemma OneLink(ans: seq<RR>, i: nat, j: nat, k: nat)
    requires AllTyped(ans) && Link(ans, i, j) && Link(ans, i, k)
    ensures j == k
  {}

  lemma PathMore(ans: seq<RR>, path: seq<nat>, j: nat)
    requires AllTyped(ans) && IsPath(ans, path) && Link(ans, Last(path), j)
    ensures IsPath(ans, path + [j])
  {
    hide Link;
  }

  lemma PathLess(ans: seq<RR>, path: seq<nat>)
    requires AllTyped(ans) && IsPath(ans, path) && |path| > 1
    ensures IsPath(ans, path[..|path| - 1]) && Link(ans, path[|path| - 2], path[|path| - 1])
  {
    hide Link;
  }

  // The name at the end of a chain.
  function EndName(ans: seq<RR>, name: Name, path: seq<nat>): Name
    requires AllTyped(ans) && IsPath(ans, path)
  {
    if |path| < 2 then name else assert Link(ans, path[|path| - 2], path[|path| - 1]); Target(ans, path[|path| - 2])
  }

  // The first name along a chain that is not empty.
  function Alias(ans: seq<RR>, path: seq<nat>): Name
    requires AllTyped(ans) && IsPath(ans, path)
  {
    if |path| < 2 then []
    else
      PathLess(ans, path);
      var before := Alias(ans, path[..|path| - 1]);
      if before != [] then before else Target(ans, path[|path| - 2])
  }

  // The addresses of a name, in order.
  function Addresses(ans: seq<RR>, name: Name): seq<seq<byte>>
    requires AllTyped(ans)
  {
    if ans == [] then []
    else
      var last := ans[|ans| - 1];
      Addresses(ans[..|ans| - 1], name) + if last.rtype == TYPE_A && SameName(last.name, name) then [last.rdata.ip] else []
  }

  function Take8(a: seq<seq<byte>>): seq<seq<byte>> { if |a| < MAX_IP then a else a[..MAX_IP] }

  // ---------------------------------------------------------------- the search

  datatype Search = Missing | TooLong | End(path: seq<nat>)

  // Follow CNAME records from the end of path; at most MAX_SEARCH times in all.
  function Follow(ans: seq<RR>, path: seq<nat>): (s: Search)
    requires AllTyped(ans) && IsPath(ans, path) && |path| <= MAX_SEARCH + 1
    ensures s.End? ==> IsPath(ans, s.path)
    decreases MAX_SEARCH + 1 - |path|
  {
    LastInRange(ans, path);
    var i := Last(path);
    if |path| - 1 >= MAX_SEARCH then TooLong
    else if ans[i].rtype != TYPE_CNAME then End(path)
    else
      var next := First(ans, Target(ans, i), 0);
      if next == |ans| then Missing else PathMore(ans, path, next); Follow(ans, path + [next])
  }

  // Two chains from the same name agree as far as both go.
  lemma {:induction false} ChainsAgree(ans: seq<RR>, name: Name, p: seq<nat>, q: seq<nat>, k: nat)
    requires AllTyped(ans) && IsChain(ans, name, p) && IsChain(ans, name, q) && k < |p| && k < |q|
    ensures p[k] == q[k]
  {
    hide First, AllTyped, Link;
    if k > 0 {
      ChainsAgree(ans, name, p, q, k - 1);
      assert Link(ans, p[k - 1], p[k]) && Link(ans, q[k - 1], q[k]);
      OneLink(ans, p[k - 1], p[k], q[k]);
    }
  }

  // The end of a search is witnessed by chain p: it ends at a record that is not a CNAME, or at one
  // whose name has no answer, or it is too long.
  ghost predicate Witness(ans: seq<RR>, name: Name, s: Search, p: seq<nat>)
    requires AllTyped(ans)
  {
    IsChain(ans, name, p) && Last(p) < |ans| &&
    match s
    case End(q) => p == q && |p| <= MAX_SEARCH && ans[Last(p)].rtype != TYPE_CNAME
    case Missing => |p| <= MAX_SEARCH && ans[Last(p)].rtype == TYPE_CNAME && First(ans, Target(ans, Last(p)), 0) == |ans|
    case TooLong => |p| == MAX_SEARCH + 1
  }

  lemma {:induction false} FollowFinds(ans: seq<RR>, name: Name, path: seq<nat>) returns (p: seq<nat>)
    requires AllTyped(ans) && IsChain(ans, name, path) && |path| <= MAX_SEARCH + 1
    ensures Witness(ans, name, Follow(ans, path), p)
    decreases MAX_SEARCH + 1 - |path|
  {
    hide First, Target, AllTyped;
    LastInRange(ans, path);
    var i := Last(path);
    p := path;
    if ans[i].rtype == TYPE_CNAME && |path| - 1 < MAX_SEARCH {
      var next := First(ans, Target(ans, i), 0);
      if next < |ans| {
        PathMore(ans, path, next);
        p := FollowFinds(ans, name, path + [next]);
      }
    }
  }

  // A chain that goes on past the end of another one has a link there.
  lemma GoesOn(ans: seq<RR>, name: Name, p: seq<nat>, q: seq<nat>)
    requires AllTyped(ans) && IsChain(ans, name, p) && IsChain(ans, name, q) && |p| < |q|
    ensures Link(ans, Last(p), q[|p|])
  {
    hide First, Target, AllTyped, Link;
    ChainsAgree(ans, name, p, q, |p| - 1);
    assert Link(ans, q[|p| - 1], q[|p|]);
  }

  lemma SameChain(ans: seq<RR>, name: Name, p: seq<nat>, q: seq<nat>)
    requires AllTyped(ans) && IsChain(ans, name, p) && IsChain(ans, name, q) && |p| == |q|
    ensures p == q
  {
    forall k | 0 <= k < |p| ensures p[k] == q[k] { ChainsAgree(ans, name, p, q, k); }
  }

  // From one name only one end can be reached, so a witness tells the result of the search.
  lemma WitnessTells(ans: seq<RR>, name: Name, s: Search, p: seq<nat>)
    requires AllTyped(ans) && Witness(ans, name, s, p)
    ensures IsPath(ans, p[..1]) && Follow(ans, p[..1]) == s
  {
    StartPath(ans, p);
    hide Follow, First, Target, AllTyped, IsPath;
    var q := FollowFinds(ans, name, p[..1]);
    if |p| < |q| {
      GoesOn(ans, name, p, q);
    } else if |q| < |p| {
      GoesOn(ans, name, q, p);
    } else {
      SameChain(ans, name, p, q);
    }
  }

  lemma StartPath(ans: seq<RR>, p: seq<nat>)
    requires AllTyped(ans) && IsPath(ans, p)
    ensures IsPath(ans, p[..1]) && p[..1][0] == p[0]
  {}

  // ---------------------------------------------------------------- the result

  function ParseA(p: Packet): Response
    requires AllTyped(p.ans)
  {
    if DnsTypes.Rcode(p.flags) != 0 then Failed(Rcode(DnsTypes.Rcode(p.flags)))
    else if p.q == [] then Failed(InAnswer)
    else if p.ans == [] then Failed(NoAnswerRec)
    else if |p.q[0].name| > BUF_SIZE then Failed(NameTooLong)
    else
      var name := p.q[0].name;
      var start := First(p.ans, name, 0);
      if start == |p.ans| then Failed(NoAnswerRec)
      else
        match Follow(p.ans, [start])
        case Missing => Failed(NoAnswerRec)
        case TooLong => Failed(InAnswer)
        case End(path) => Finish(p.ans, name, path)
  }

  function Finish(ans: seq<RR>, name: Name, path: seq<nat>): Response
    requires AllTyped(ans) && IsPath(ans, path)
  {
    LastInRange(ans, path);
    if ans[Last(path)].rtype != TYPE_A then Failed(InAnswer)
    else if |Alias(ans, path)| > BUF_SIZE - |name| then Failed(NameTooLong)
    else if Addresses(ans, EndName(ans, name, path)) == [] then Failed(NoAnswerRec)
    else Found(Record(name, Alias(ans, path), Take8(Addresses(ans, EndName(ans, name, path)))))
  }

  lemma {:induction false} AddressesHas(ans: seq<RR>, name: Name, i: nat)
    requires AllTyped(ans) && i < |ans| && ans[i].rtype == TYPE_A && SameName(ans[i].name, name)
    ensures Addresses(ans, name) != []
  {
    if i < |ans| - 1 { AddressesHas(ans[..|ans| - 1], name, i); }
  }

  // The last record of a chain is an answer of the name at its end.
  lemma EndMatches(ans: seq<RR>, name: Name, path: seq<nat>)
    requires AllTyped(ans) && IsChain(ans, name, path)
    ensures Last(path) < |ans| && SameName(ans[Last(path)].name, EndName(ans, name, path))
  {
    hide AllTyped;
    LastInRange(ans, path);
    if |path| > 1 { assert Link(ans, path[|path| - 2], path[|path| - 1]); }
  }

  predicate Readable(p: Packet) {
    DnsTypes.Rcode(p.flags) == 0 && p.q != [] && |p.q[0].name| <= BUF_SIZE
  }

  ghost predicate Leads(ans: seq<RR>, name: Name, path: seq<nat>, rec: Record)
    requires AllTyped(ans)
  {
    && IsChain(ans, name, path) && |path| <= MAX_SEARCH && Last(path) < |ans| && ans[Last(path)].rtype == TYPE_A
    && |name| + |Alias(ans, path)| <= BUF_SIZE
    && rec == Record(name, Alias(ans, path), Take8(Addresses(ans, EndName(ans, name, path))))
  }

  lemma FoundLeads(p: Packet, rec: Record)
    requires AllTyped(p.ans)
    ensures ParseA(p) == Found(rec) <==>
      Readable(p) && exists path :: Leads(p.ans, p.q[0].name, path, rec)
  {
    hide AllTyped, First, Follow, Addresses, Alias, IsPath;
    if ParseA(p) == Found(rec) {
      var name := p.q[0].name;
      StartChain(p.ans, name);
      var path := FollowFinds(p.ans, name, [First(p.ans, name, 0)]);
      assert Leads(p.ans, name, path, rec);
    }
    if Readable(p) && exists path :: Leads(p.ans, p.q[0].name, path, rec) {
      var path :| Leads(p.ans, p.q[0].name, path, rec);
      LeadsFound(p, path, rec);
    }
  }

  lemma StartChain(ans: seq<RR>, name: Name)
    requires AllTyped(ans) && First(ans, name, 0) < |ans|
    ensures IsChain(ans, name, [First(ans, name, 0)])
  {}

  lemma LeadsFound(p: Packet, path: seq<nat>, rec: Record)
    requires AllTyped(p.ans) && Readable(p) && Leads(p.ans, p.q[0].name, path, rec)
    ensures ParseA(p) == Found(rec)
  {
    var name := p.q[0].name;
    StartPath(p.ans, path);
    hide AllTyped, First, Follow, Addresses, Alias, IsPath;
    WitnessTells(p.ans, name, End(path), path);
    assert path[..1] == [First(p.ans, name, 0)];
    EndMatches(p.ans, name, path);
    AddressesHas(p.ans, EndName(p.ans, name, path), Last(path));
  }

  // ---------------------------------------------------------------- the record, by places

  // Record i is an A record of the name.
  predicate IsAddress(ans: seq<RR>, name: Name, i: nat) {
    i < |ans| && ans[i].rtype == TYPE_A && SameName(ans[i].name, name)
  }

  // ks are the places of the first A records of the name, at most eight, and addrs their addresses.
  ghost predicate Collected(ans: seq<RR>, name: Name, ks: seq<nat>, addrs: seq<seq<byte>>)
    requires AllTyped(ans)
  {
    && |ks| == |addrs| <= 8
    && (forall j :: 0 <= j < |ks| ==> IsAddress(ans, name, ks[j]) && addrs[j] == ans[ks[j]].rdata.ip)
    && (forall j, k :: 0 <= j < k < |ks| ==> ks[j] < ks[k])
    && (forall i: nat :: IsAddress(ans, name, i) ==> i in ks || (|ks| == 8 && ks[7] < i))
  }

  // All the places.
  function Places(ans: seq<RR>, name: Name): (ks: seq<nat>)
    requires AllTyped(ans)
    ensures forall j :: 0 <= j < |ks| ==> IsAddress(ans, name, ks[j])
    ensures forall j, k :: 0 <= j < k < |ks| ==> ks[j] < ks[k]
  {
    if ans == [] then []
    else
      var n := |ans| - 1;
      var ks := Places(ans[..n], name);
      assert forall j :: 0 <= j < |ks| ==> IsAddress(ans[..n], name, ks[j]);
      ks + if IsAddress(ans, name, n) then [n] else []
  }

  lemma {:induction false} PlacesAre(ans: seq<RR>, name: Name)
    requires AllTyped(ans)
    ensures |Places(ans, name)| == |Addresses(ans, name)|
    ensures forall j :: 0 <= j < |Places(ans, name)| ==> Addresses(ans, name)[j] == ans[Places(ans, name)[j]].rdata.ip
    ensures forall i: nat :: IsAddress(ans, name, i) ==> i in Places(ans, name)
  {
    if ans != [] {
      hide SameName;
      var n := |ans| - 1;
      PlacesAre(ans[..n], name);
      var ks := Places(ans[..n], name);
      forall j | 0 <= j < |ks| ensures Addresses(ans, name)[j] == ans[Places(ans, name)[j]].rdata.ip {
        assert ans[..n][ks[j]] == ans[ks[j]];
      }
      forall i: nat | IsAddress(ans, name, i) ensures i in Places(ans, name) {
        if i < n { assert IsAddress(ans[..n], name, i); }
      }
    }
  }

  lemma CollectedFirst(ans: seq<RR>, name: Name) returns (ks: seq<nat>)
    requires AllTyped(ans)
    ensures Collected(ans, name, ks, Take8(Addresses(ans, name)))
  {
    hide Addresses, IsAddress, Places, AllTyped;
    PlacesAre(ans, name);
    var all := Places(ans, name);
    ks := if |all| < 8 then all else all[..8];
    forall i: nat | IsAddress(ans, name, i) ensures i in ks || (|ks| == 8 && ks[7] < i) {
      InFirst8(all, i);
    }
  }

  lemma InFirst8(all: seq<nat>, i: nat)
    requires i in all && forall j, k :: 0 <= j < k < |all| ==> all[j] < all[k]
    ensures var ks := if |all| < 8 then all else all[..8]; i in ks || (|ks| == 8 && ks[7] < i)
  {
    var j :| 0 <= j < |all| && all[j] == i;
    if |all| >= 8 && j < 8 { assert all[..8][j] == i; }
  }

  // The places are determined.
  lemma {:induction false} SamePlaces(ans: seq<RR>, name: Name, ks: seq<nat>, a: seq<seq<byte>>, ls: seq<nat>, b: seq<seq<byte>>, j: nat)
    requires AllTyped(ans) && Collected(ans, name, ks, a) && Collected(ans, name, ls, b) && j <= |ks| && j <= |ls|
    ensures ks[..j] == ls[..j]
  {
    hide AllTyped, IsAddress;
    if j > 0 {
      SamePlaces(ans, name, ks, a, ls, b, j - 1);
      NotSmaller(ans, name, ks, a, ls, b, j - 1);
      NotSmaller(ans, name, ls, b, ks, a, j - 1);
      assert ks[..j] == ks[..j - 1] + [ks[j - 1]] && ls[..j] == ls[..j - 1] + [ls[j - 1]];
    }
  }

  lemma NotSmaller(ans: seq<RR>, name: Name, ks: seq<nat>, a: seq<seq<byte>>, ls: seq<nat>, b: seq<seq<byte>>, j: nat)
    requires AllTyped(ans) && Collected(ans, name, ks, a) && Collected(ans, name, ls, b) && j < |ks| && j <= |ls| && ks[..j] == ls[..j]
    ensures j < |ls| && ls[j] <= ks[j]
  {
    hide AllTyped;
    var x := ks[j];
    assert IsAddress(ans, name, x);
    hide IsAddress;
    if x in ls {
      var m :| 0 <= m < |ls| && ls[m] == x;
      forall t | 0 <= t < j ensures ks[t] == ls[t] { assert ks[..j][t] == ls[..j][t]; }
      assert m >= j;
      assert m > j ==> ls[j] < ls[m];
    } else {
      assert |ls| == 8 && ls[7] < x;
      assert j < 7 ==> ls[j] < ls[7];
    }
  }

  lemma SameAddresses(ans: seq<RR>, name: Name, ks: seq<nat>, a: seq<seq<byte>>, ls: seq<nat>, b: seq<seq<byte>>)
    requires AllTyped(ans) && Collected(ans, name, ks, a) && Collected(ans, name, ls, b)
    ensures a == b
  {
    var n := if |ks| < |ls| then |ks| else |ls|;
    SamePlaces(ans, name, ks, a, ls, b, n);
    if |ks| > n { NotSmaller(ans, name, ks, a, ls, b, n); }
    if |ls| > n { NotSmaller(ans, name, ls, b, ks, a, n); }
    hide AllTyped, IsAddress;
    assert ks[..n] == ks && ls[..n] == ls;
  }

  // Record i is a CNAME record for the name.
  predicate GivesName(ans: seq<RR>, i: nat, name: Name)
    requires AllTyped(ans)
  {
    i < |ans| && ans[i].rtype == TYPE_CNAME && ans[i].rdata.name == name
  }

  // The first n records along a path give empty names.
  predicate Nameless(ans: seq<RR>, path: seq<nat>, n: nat)
    requires AllTyped(ans) && n <= |path|
  {
    forall k :: 0 <= k < n ==> GivesName(ans, path[k], [])
  }

  // The k-th record along the chain is the first that gives a name, which is the alias; there is no alias if
  // none does.
  predicate AliasAt(ans: seq<RR>, path: seq<nat>, k: nat, alias: Name)
    requires AllTyped(ans)
  {
    && k < |path| && Nameless(ans, path, k)
    && if k == |path| - 1 then alias == [] else alias != [] && GivesName(ans, path[k], alias)
  }

  ghost predicate IsAlias(ans: seq<RR>, path: seq<nat>, alias: Name)
    requires AllTyped(ans)
  {
    exists k: nat :: AliasAt(ans, path, k, alias)
  }

  lemma {:induction false} AliasPlace(ans: seq<RR>, path: seq<nat>) returns (k: nat)
    requires AllTyped(ans) && IsPath(ans, path)
    ensures AliasAt(ans, path, k, Alias(ans, path))
    decreases |path|
  {
    k := 0;
    if |path| >= 2 {
      PathLess(ans, path);
      var n := |path| - 1;
      k := AliasPlace(ans, path[..n]);
      LonePlace(ans, path, n, k);
      hide AllTyped, First, IsPath, AliasAt;
      if k == n - 1 && Target(ans, path[n - 1]) == [] { k := n; }
    }
  }

  // From the chain without its last record to the chain.
  lemma LonePlace(ans: seq<RR>, path: seq<nat>, n: nat, k: nat)
    requires AllTyped(ans) && IsPath(ans, path) && n == |path| - 1 >= 1 && IsPath(ans, path[..n]) && Link(ans, path[n - 1], path[n])
    requires AliasAt(ans, path[..n], k, Alias(ans, path[..n]))
    ensures if k == n - 1 && Target(ans, path[n - 1]) == [] then AliasAt(ans, path, n, Alias(ans, path)) else AliasAt(ans, path, k, Alias(ans, path))
  {
    assert GivesName(ans, path[n - 1], Target(ans, path[n - 1]));
    AliasMore(ans, path, n);
    hide First, IsPath, GivesName, AllTyped, Alias, Target, Link;
    var p := path[..n];
    assert k < n && p[k] == path[k];
    forall j | 0 <= j < k ensures GivesName(ans, path[j], []) { assert p[j] == path[j] && GivesName(ans, p[j], []); }
    assert Nameless(ans, path, k);
  }

  lemma AliasMore(ans: seq<RR>, path: seq<nat>, n: nat)
    requires AllTyped(ans) && IsPath(ans, path) && n == |path| - 1 >= 1 && IsPath(ans, path[..n]) && Link(ans, path[n - 1], path[n])
    ensures Alias(ans, path) == if Alias(ans, path[..n]) != [] then Alias(ans, path[..n]) else Target(ans, path[n - 1])
  {
    hide AllTyped, First, IsPath;
  }

  lemma AliasIs(ans: seq<RR>, path: seq<nat>)
    requires AllTyped(ans) && IsPath(ans, path)
    ensures IsAlias(ans, path, Alias(ans, path))
  {
    hide AliasAt, AllTyped;
    var k := AliasPlace(ans, path);
  }

  lemma OneAlias(ans: seq<RR>, path: seq<nat>, a: Name, b: Name)
    requires AllTyped(ans) && IsAlias(ans, path, a) && IsAlias(ans, path, b)
    ensures a == b
  {
    hide AllTyped;
    var k: nat :| AliasAt(ans, path, k, a);
    var m: nat :| AliasAt(ans, path, m, b);
    NotBefore(ans, path, k, a, m, b);
    NotBefore(ans, path, m, b, k, a);
  }

  lemma NotBefore(ans: seq<RR>, path: seq<nat>, k: nat, a: Name, m: nat, b: Name)
    requires AllTyped(ans) && AliasAt(ans, path, k, a) && AliasAt(ans, path, m, b)
    ensures m <= k
  {
    hide AllTyped;
  }

  // The answer: the question's name, the alias, and the first 8 addresses of the name at the end of a chain
  // of at most 19 hops that leads to an A record.
  ghost predicate Reaches(ans: seq<RR>, name: Name, path: seq<nat>, ks: seq<nat>, rec: Record)
    requires AllTyped(ans)
  {
    && IsChain(ans, name, path) && |path| <= 20 && path[|path| - 1] < |ans| && ans[path[|path| - 1]].rtype == TYPE_A
    && rec.name == name && IsAlias(ans, path, rec.alias) && |name| + |rec.alias| <= 128
    && Collected(ans, EndName(ans, name, path), ks, rec.addrs)
  }

  // Success means such a chain, and every such chain leads to success.
  lemma FoundExactly(p: Packet, rec: Record)
    requires AllTyped(p.ans)
    ensures ParseA(p) == Found(rec) <==>
      Readable(p) && exists path, ks :: Reaches(p.ans, p.q[0].name, path, ks, rec)
  {
    hide AllTyped, First, ParseA, Addresses, Alias, IsAlias, Collected, Link;
    FoundLeads(p, rec);
    if Readable(p) {
      var ans, name := p.ans, p.q[0].name;
      if path :| Leads(ans, name, path, rec) {
        var ks := CollectedFirst(ans, EndName(ans, name, path));
        AliasIs(ans, path);
        assert Reaches(ans, name, path, ks, rec);
      }
      if path, ks :| Reaches(ans, name, path, ks, rec) {
        var ls := CollectedFirst(ans, EndName(ans, name, path));
        SameAddresses(ans, EndName(ans, name, path), ks, rec.addrs, ls, Take8(Addresses(ans, EndName(ans, name, path))));
        AliasIs(ans, path);
        OneAlias(ans, path, rec.alias, Alias(ans, path));
        assert Leads(ans, name, path, rec);
      }
    }
  }

  // ---------------------------------------------------------------- the errors

  // The search along the chain from the question's name goes through all of path and then ends with s.
  ghost predicate EndsWith(p: Packet, s: Search, path: seq<nat>)
    requires AllTyped(p.ans)
  {
    Readable(p) && Witness(p.ans, p.q[0].name, s, path)
  }

  // Which error, and when: the status of the packet; no question, a chain that is too long or ends in another
  // type; no answer for the name or for the name of a CNAME record; names that do not fit.
  lemma FailsExactly(p: Packet, e: Error)
    requires AllTyped(p.ans)
    ensures ParseA(p) == Failed(e) <==>
      match e
      case Rcode(code) => code == p.flags % 16 != 0
      case InAnswer =>
        p.flags % 16 == 0 &&
        (p.q == [] || exists s, path :: EndsWith(p, s, path) && (s.TooLong? || (s.End? && p.ans[Last(path)].rtype != TYPE_A)))
      case NoAnswerRec =>
        p.flags % 16 == 0 && p.q != [] &&
        (p.ans == [] || (Readable(p) && First(p.ans, p.q[0].name, 0) == |p.ans|) || exists path :: EndsWith(p, Missing, path))
      case NameTooLong =>
        p.flags % 16 == 0 && p.q != [] && p.ans != [] &&
        (|p.q[0].name| > 128 ||
         exists path :: EndsWith(p, End(path), path) && p.ans[Last(path)].rtype == TYPE_A && Overlong(p, path))
  {
    hide AllTyped, First, Follow, Finish, IsPath, Overlong;
    if Readable(p) && First(p.ans, p.q[0].name, 0) < |p.ans| {
      var s, path := SearchOf(p);
      if s.End? { EndOf(p, path); }
      forall t, q | EndsWith(p, t, q) ensures t == s { OneEnd(p, s, path, t, q); }
    } else {
      forall t, q ensures !EndsWith(p, t, q) { NoEnd(p, t, q); }
    }
  }

  lemma SearchOf(p: Packet) returns (s: Search, path: seq<nat>)
    requires AllTyped(p.ans) && Readable(p) && First(p.ans, p.q[0].name, 0) < |p.ans|
    ensures EndsWith(p, s, path) && (s.End? ==> s.path == path)
    ensures var start := First(p.ans, p.q[0].name, 0); IsPath(p.ans, [start]) && s == Follow(p.ans, [start])
  {
    hide AllTyped, First, Follow;
    var name := p.q[0].name;
    StartChain(p.ans, name);
    path := FollowFinds(p.ans, name, [First(p.ans, name, 0)]);
    s := Follow(p.ans, [First(p.ans, name, 0)]);
  }

  lemma EndFollows(p: Packet, s: Search, path: seq<nat>)
    requires AllTyped(p.ans) && EndsWith(p, s, path)
    ensures var start := First(p.ans, p.q[0].name, 0); IsPath(p.ans, [start]) && Follow(p.ans, [start]) == s
  {
    hide AllTyped, First, Follow, Link;
    WitnessTells(p.ans, p.q[0].name, s, path);
    assert path[..1] == [First(p.ans, p.q[0].name, 0)];
  }

  lemma OneEnd(p: Packet, s: Search, path: seq<nat>, t: Search, q: seq<nat>)
    requires AllTyped(p.ans) && EndsWith(p, s, path) && EndsWith(p, t, q)
    ensures t == s
  {
    hide AllTyped, First, Follow, EndsWith, IsPath;
    EndFollows(p, s, path);
    EndFollows(p, t, q);
  }

  lemma NoEnd(p: Packet, t: Search, q: seq<nat>)
    requires AllTyped(p.ans) && !(Readable(p) && First(p.ans, p.q[0].name, 0) < |p.ans|)
    ensures !EndsWith(p, t, q)
  {
    hide AllTyped, First, Link;
  }

  // The alias of the chain makes the names too long.
  ghost predicate Overlong(p: Packet, path: seq<nat>)
    requires AllTyped(p.ans) && path != [] && p.q != []
  {
    exists alias :: IsAlias(p.ans, path, alias) && |p.q[0].name| + |alias| > 128
  }

  // At the end of a chain at an A record, only the names can fail to fit.
  lemma EndOf(p: Packet, path: seq<nat>)
    requires AllTyped(p.ans) && EndsWith(p, End(path), path)
    ensures IsPath(p.ans, path) && Last(path) < |p.ans|
    ensures Finish(p.ans, p.q[0].name, path) ==
      if p.ans[Last(path)].rtype != TYPE_A then Failed(InAnswer)
      else if Overlong(p, path) then Failed(NameTooLong)
      else Found(Record(p.q[0].name, Alias(p.ans, path), Take8(Addresses(p.ans, EndName(p.ans, p.q[0].name, path)))))
  {
    hide AllTyped, First, Addresses, Alias, IsAlias;
    var ans, name := p.ans, p.q[0].name;
    EndMatches(ans, name, path);
    if ans[Last(path)].rtype == TYPE_A { AddressesHas(ans, EndName(ans, name, path), Last(path)); }
    AliasIs(ans, path);
    if alias :| IsAlias(ans, path, alias) && |name| + |alias| > 128 { OneAlias(ans, path, alias, Alias(ans, path)); }
  }

  // ---------------------------------------------------------------- cycles

  // A chain that comes back to a record can be as long as one likes.
  lemma {:induction false} CycleGoesOn(ans: seq<RR>, name: Name, p: seq<nat>, i: nat, j: nat, n: nat) returns (q: seq<nat>, t: nat)
    requires AllTyped(ans) && IsChain(ans, name, p) && i < j < |p| && p[i] == p[j]
    ensures IsChain(ans, name, q) && |q| == n + 1 && t < j && Last(q) == p[t]
  {
    hide AllTyped, First, Link;
    if n == 0 {
      q, t := [p[0]], 0;
    } else {
      q, t := CycleGoesOn(ans, name, p, i, j, n - 1);
      assert Link(ans, p[(t + 1) - 1], p[t + 1]);
      PathMore(ans, q, p[t + 1]);
      q := q + [p[t + 1]];
      t := if t + 1 == j then i else t + 1;
    }
  }

  // Every chain of aliases that runs in a circle is reported as a bad answer.
  lemma CyclesAreRefused(p: Packet, path: seq<nat>, i: nat, j: nat)
    requires AllTyped(p.ans) && Readable(p)
    requires IsChain(p.ans, p.q[0].name, path) && i < j < |path| && path[i] == path[j]
    ensures ParseA(p) == Failed(InAnswer)
  {
    hide AllTyped, First, Follow, Link, Finish;
    var q, t := CycleGoesOn(p.ans, p.q[0].name, path, i, j, MAX_SEARCH);
    LastInRange(p.ans, q);
    WitnessTells(p.ans, p.q[0].name, TooLong, q);
    assert q[..1] == [First(p.ans, p.q[0].name, 0)];
  }

  // ---------------------------------------------------------------- the reader

  method FindFirst(ans: seq<RR>, name: Name) returns (i: nat)
    ensures i == First(ans, name, 0)
  {
    hide SameName;
    i := 0;
    while i < |ans| && !SameName(ans[i].name, name)
      invariant i <= |ans| && First(ans, name, i) == First(ans, name, 0)
    {
      i := i + 1;
    }
  }

  // The same search, with the names compared the other way round.
  method FindTarget(ans: seq<RR>, name: Name) returns (i: nat)
    ensures i == First(ans, name, 0)
  {
    hide SameName;
    i := 0;
    while i < |ans| && !SameName(name, ans[i].name)
      invariant i <= |ans| && First(ans, name, i) == First(ans, name, 0)
    {
      SameNameSymmetric(name, ans[i].name);
      i := i + 1;
    }
    if i < |ans| { SameNameSymmetric(name, ans[i].name); }
  }

  method CollectAddresses(ans: seq<RR>, name: Name) returns (addrs: seq<seq<byte>>)
    requires AllTyped(ans)
    ensures addrs == Take8(Addresses(ans, name))
  {
    hide SameName;
    addrs := [];
    for i := 0 to |ans|
      invariant addrs == Take8(Addresses(ans[..i], name))
    {
      assert ans[..i + 1][..i] == ans[..i];
      if ans[i].rtype == TYPE_A && SameName(ans[i].name, name) && |addrs| < MAX_IP {
        addrs := addrs + [ans[i].rdata.ip];
      }
    }
    assert ans[..|ans|] == ans;
  }

  // pj_dns_parse_a_response
  method ParseAResponse(p: Packet) returns (r: Response)
    requires AllTyped(p.ans)
    ensures r == ParseA(p)
  {
    hide AllTyped, First, Addresses, Link;
    if DnsTypes.Rcode(p.flags) != 0 {
      return Failed(Rcode(DnsTypes.Rcode(p.flags)));
    }
    if p.q == [] {
      return Failed(InAnswer);
    }
    if p.ans == [] {
      return Failed(NoAnswerRec);
    }
    var hostname := p.q[0].name;
    if |hostname| > BUF_SIZE {
      return Failed(NameTooLong);
    }
    var ansidx := FindFirst(p.ans, hostname);
    if ansidx == |p.ans| {
      return Failed(NoAnswerRec);
    }
    var resname, alias: Name, searchCnt := hostname, [], 0;
    ghost var path: seq<nat> := [ansidx];
    ghost var start: seq<nat> := [ansidx];
    while p.ans[ansidx].rtype == TYPE_CNAME && searchCnt < MAX_SEARCH
      invariant ansidx < |p.ans| && searchCnt <= MAX_SEARCH && |path| == searchCnt + 1
      invariant IsPath(p.ans, path) && Last(path) == ansidx && Follow(p.ans, path) == Follow(p.ans, start)
      invariant resname == EndName(p.ans, hostname, path) && alias == Alias(p.ans, path)
    {
      searchCnt := searchCnt + 1;
      resname := Target(p.ans, ansidx);
      if alias == [] {
        alias := resname;
      }
      var i := FindTarget(p.ans, resname);
      if i == |p.ans| {
        return Failed(NoAnswerRec);
      }
      StepPath(p.ans, path, i, hostname);
      ansidx := i;
      path := path + [i];
    }
    // the counter has moved on once more when it stopped the loop
    if searchCnt >= MAX_SEARCH {
      return Failed(InAnswer);
    }
    if p.ans[ansidx].rtype != TYPE_A {
      return Failed(InAnswer);
    }
    if |alias| > BUF_SIZE - |hostname| {
      return Failed(NameTooLong);
    }
    var addrs := CollectAddresses(p.ans, resname);
    if addrs == [] {
      return Failed(NoAnswerRec);
    }
    r := Found(Record(hostname, alias, addrs));
  }

  // One more hop of the loop.
  lemma StepPath(ans: seq<RR>, path: seq<nat>, i: nat, name: Name)
    requires AllTyped(ans) && IsPath(ans, path) && |path| <= MAX_SEARCH && i < |ans|
    requires Last(path) < |ans| && ans[Last(path)].rtype == TYPE_CNAME && i == First(ans, Target(ans, Last(path)), 0)
    ensures IsPath(ans, path + [i]) && Follow(ans, path + [i]) == Follow(ans, path)
    ensures EndName(ans, name, path + [i]) == Target(ans, Last(path))
    ensures Alias(ans, path + [i]) == if Alias(ans, path) == [] then Target(ans, Last(path)) else Alias(ans, path)
  {
    PathMore(ans, path, i);
    hide AllTyped, First, IsPath;
    assert (path + [i])[..|path|] == path;
  }

  // ---------------------------------------------------------------- parsed packets are typed

  lemma ParsedRRTyped(pkt: seq<byte>, start: nat)
    ensures var r := DnsParser.ParseRR(pkt, start); r.Done? ==> Typed(r.value)
  {}

  lemma {:induction false} ParsedRRsTyped(pkt: seq<byte>, start: nat, n: nat)
    requires start <= |pkt|
    ensures var r := DnsParser.ParseRRs(pkt, start, n); r.Done? ==> AllTyped(r.value)
    decreases n
  {
    if n > 0 {
      ParsedRRTyped(pkt, start);
      hide DnsParser.ParseRR, Typed;
      var r := DnsParser.ParseRR(pkt, start);
      if r.Done? { ParsedRRsTyped(pkt, start + r.len, n - 1); }
    }
  }

  // So the reader may be given whatever the parser returns.
  lemma ParsedPacketTyped(pkt: seq<byte>)
    ensures var r := DnsParser.ParsePacket(pkt); r.Done? ==> AllTyped(r.value.ans)
  {
    hide DnsParser.ParseRRs, DnsParser.ParseQueries, AllTyped;
    var r := DnsParser.ParsePacket(pkt);
    if r.Done? {
      var q := DnsParser.ParseQueries(pkt, DnsParser.HEADER, DnsParser.R16(pkt, 4));
      ParsedRRsTyped(pkt, DnsParser.HEADER + q.len, DnsParser.R16(pkt, 6));
    }
  }
}
