/** Copying a DNS packet into another pool (pj_dns_packet_dup): names already copied are shared. */
module DnsCopy {
  import opened Bytes
  import opened DnsTypes

  const MAX_NAMES := 16

  datatype Copied<T> = Copied(table: seq<Name>, value: T)

  // First table entry that is the same name, or the table's length.
  function Find(table: seq<Name>, src: Name): (i: nat)
    ensures i <= |table|
    ensures i < |table| ==> SameName(table[i], src)
    ensures forall j :: 0 <= j < i ==> !SameName(table[j], src)
  {
    if table == [] then 0
    else if SameName(table[0], src) then 0
    else
      var i := Find(table[1..], src);
      assert forall j :: 0 < j < i + 1 ==> table[j] == table[1..][j - 1];
      i + 1
  }

  function ApplyNameTable(table: seq<Name>, src: Name): Copied<Name> {
    var i := Find(table, src);
    if i < |table| then Copied(table, table[i])
    else if |table| < MAX_NAMES then Copied(table + [src], src)
    else Copied(table, src)
  }

  function DupRR(table: seq<Name>, rr: RR): Copied<RR> {
    var n := ApplyNameTable(table, rr.name);
    if rr.rtype == TYPE_SRV && rr.rdata.Service? then
      var t := ApplyNameTable(n.table, rr.rdata.target);
      Copied(t.table, rr.(name := n.value, rdata := rr.rdata.(target := t.value)))
    else Copied(n.table, rr.(name := n.value))
  }

  function DupQueries(table: seq<Name>, qs: seq<Query>): Copied<seq<Query>> {
    if qs == [] then Copied(table, [])
    else
      var init := DupQueries(table, qs[..|qs| - 1]);
      var n := ApplyNameTable(init.table, qs[|qs| - 1].name);
      Copied(n.table, init.value + [qs[|qs| - 1].(name := n.value)])
  }

  function DupRRs(table: seq<Name>, rrs: seq<RR>): Copied<seq<RR>> {
    if rrs == [] then Copied(table, [])
    else
      var init := DupRRs(table, rrs[..|rrs| - 1]);
      var r := DupRR(init.table, rrs[|rrs| - 1]);
      Copied(r.table, init.value + [r.value])
  }

  // The copy the cache keeps: no NS and no additional section.
  function DupForCache(p: Packet): Packet {
    var q := DupQueries([], p.q);
    Packet(p.id, p.flags, q.value, DupRRs(q.table, p.ans).value, [], [])
  }

  // ---------------------------------------------------------------- what a copy keeps

  ghost predicate SameRData(a: RData, b: RData) {
    if a.Service? && b.Service? then a.prio == b.prio && a.weight == b.weight && a.port == b.port && SameName(a.target, b.target)
    else a == b
  }

  ghost predicate CopiedRR(a: RR, b: RR) {
    && SameName(a.name, b.name) && SameRData(a.rdata, b.rdata)
    && a.rtype == b.rtype && a.rclass == b.rclass && a.ttl == b.ttl && a.rdlength == b.rdlength
  }

  ghost predicate CopiedQuery(a: Query, b: Query) {
    SameName(a.name, b.name) && a.qtype == b.qtype && a.qclass == b.qclass
  }

  lemma ApplyKeepsName(table: seq<Name>, src: Name)
    ensures SameName(ApplyNameTable(table, src).value, src)
  {
    SameTextReflexive(src);
  }

  lemma DupKeepsRR(table: seq<Name>, rr: RR)
    ensures CopiedRR(DupRR(table, rr).value, rr)
  {
    ApplyKeepsName(table, rr.name);
    if rr.rdata.Service? {
      SameTextReflexive(rr.rdata.target);
      ApplyKeepsName(ApplyNameTable(table, rr.name).table, rr.rdata.target);
    }
  }

  lemma {:induction false} DupKeepsQueries(table: seq<Name>, qs: seq<Query>)
    ensures var d := DupQueries(table, qs).value;
      |d| == |qs| && forall i :: 0 <= i < |qs| ==> CopiedQuery(d[i], qs[i])
  {
    if qs != [] {
      DupKeepsQueries(table, qs[..|qs| - 1]);
      ApplyKeepsName(DupQueries(table, qs[..|qs| - 1]).table, qs[|qs| - 1].name);
    }
  }

  lemma {:induction false} DupKeepsRRs(table: seq<Name>, rrs: seq<RR>)
    ensures var d := DupRRs(table, rrs).value;
      |d| == |rrs| && forall i :: 0 <= i < |rrs| ==> CopiedRR(d[i], rrs[i])
  {
    if rrs != [] {
      DupKeepsRRs(table, rrs[..|rrs| - 1]);
      DupKeepsRR(DupRRs(table, rrs[..|rrs| - 1]).table, rrs[|rrs| - 1]);
    }
  }

  // Questions and answers survive, names up to case, whatever names are shared.
  lemma DupKeepsPacket(p: Packet)
    ensures var d := DupForCache(p);
      && d.id == p.id && d.flags == p.flags && d.ns == [] && d.arr == []
      && |d.q| == |p.q| && (forall i :: 0 <= i < |p.q| ==> CopiedQuery(d.q[i], p.q[i]))
      && |d.ans| == |p.ans| && (forall i :: 0 <= i < |p.ans| ==> CopiedRR(d.ans[i], p.ans[i]))
  {
    DupKeepsQueries([], p.q);
    DupKeepsRRs(DupQueries([], p.q).table, p.ans);
  }

  // ---------------------------------------------------------------- which names are shared

  function RRNames(rr: RR): seq<Name> { [rr.name] + if rr.rtype == TYPE_SRV && rr.rdata.Service? then [rr.rdata.target] else [] }

  function QueriesNames(qs: seq<Query>): seq<Name> {
    if qs == [] then [] else QueriesNames(qs[..|qs| - 1]) + [qs[|qs| - 1].name]
  }

  function RRsNames(rrs: seq<RR>): seq<Name> {
    if rrs == [] then [] else RRsNames(rrs[..|rrs| - 1]) + RRNames(rrs[|rrs| - 1])
  }

  // The names of questions and answers, in the order in which they are copied.
  function NamesIn(p: Packet): seq<Name> { QueriesNames(p.q) + RRsNames(p.ans) }

  function CopyNames(table: seq<Name>, names: seq<Name>): (c: Copied<seq<Name>>)
    ensures |c.value| == |names|
  {
    if names == [] then Copied(table, [])
    else
      var init := CopyNames(table, names[..|names| - 1]);
      var n := ApplyNameTable(init.table, names[|names| - 1]);
      Copied(n.table, init.value + [n.value])
  }

  lemma {:induction false} CopyAppend(table: seq<Name>, a: seq<Name>, b: seq<Name>)
    ensures var c := CopyNames(table, a); var d := CopyNames(c.table, b); CopyNames(table, a + b) == Copied(d.table, c.value + d.value)
    decreases |b|
  {
    hide ApplyNameTable;
    var c := CopyNames(table, a);
    if b == [] {
      assert a + b == a && c.value + [] == c.value;
    } else {
      var k, n := |b| - 1, |a + b| - 1;
      CopyAppend(table, a, b[..k]);
      assert (a + b)[..n] == a + b[..k] && (a + b)[n] == b[k];
      var d := CopyNames(c.table, b[..k]);
      var x := ApplyNameTable(d.table, b[k]).value;
      assert (c.value + d.value) + [x] == c.value + (d.value + [x]);
    }
  }

  lemma CopyOne(table: seq<Name>, n: Name)
    ensures var c := ApplyNameTable(table, n); CopyNames(table, [n]) == Copied(c.table, [c.value])
  {
    hide ApplyNameTable;
    var one, c := [n], ApplyNameTable(table, n);
    assert one[..|one| - 1] == [] && one[|one| - 1] == n;
    assert CopyNames(table, []) == Copied(table, []);
    assert CopyNames(table, one) == Copied(c.table, [] + [c.value]);
    assert [] + [c.value] == [c.value];
  }

  lemma {:induction false} QueriesCopy(table: seq<Name>, qs: seq<Query>)
    ensures var d := DupQueries(table, qs); CopyNames(table, QueriesNames(qs)) == Copied(d.table, QueriesNames(d.value))
  {
    if qs != [] {
      hide ApplyNameTable, CopyNames, CopiedQuery;
      var k := |qs| - 1;
      QueriesCopy(table, qs[..k]);
      var init := DupQueries(table, qs[..k]);
      DupKeepsQueries(table, qs[..k]);
      CopyAppend(table, QueriesNames(qs[..k]), [qs[k].name]);
      CopyOne(init.table, qs[k].name);
      assert DupQueries(table, qs).value[..k] == init.value;
    }
  }

  lemma RRCopy(table: seq<Name>, rr: RR)
    ensures var d := DupRR(table, rr); CopyNames(table, RRNames(rr)) == Copied(d.table, RRNames(d.value))
  {
    hide ApplyNameTable;
    CopyOne(table, rr.name);
    var n := ApplyNameTable(table, rr.name);
    if rr.rtype == TYPE_SRV && rr.rdata.Service? {
      CopyOne(n.table, rr.rdata.target);
      CopyAppend(table, [rr.name], [rr.rdata.target]);
    } else {
      assert RRNames(rr) == [rr.name] && RRNames(DupRR(table, rr).value) == [n.value];
    }
  }

  lemma {:induction false} RRsCopy(table: seq<Name>, rrs: seq<RR>)
    ensures var d := DupRRs(table, rrs); CopyNames(table, RRsNames(rrs)) == Copied(d.table, RRsNames(d.value))
  {
    if rrs != [] {
      hide ApplyNameTable, CopyNames, DupRR, RRNames, CopiedRR;
      var k := |rrs| - 1;
      RRsCopy(table, rrs[..k]);
      var init := DupRRs(table, rrs[..k]);
      DupKeepsRRs(table, rrs[..k]);
      CopyAppend(table, RRsNames(rrs[..k]), RRNames(rrs[k]));
      RRCopy(init.table, rrs[k]);
      assert DupRRs(table, rrs).value[..k] == init.value;
    }
  }

  // The first of the names that is the same as the k-th.
  function FirstSame(names: seq<Name>, k: nat, j: nat): (r: nat)
    requires j <= k < |names|
    ensures j <= r <= k && SameName(names[r], names[k]) && forall i :: j <= i < r ==> !SameName(names[i], names[k])
    decreases k - j
  {
    SameTextReflexive(names[k]);
    if SameName(names[j], names[k]) then j else FirstSame(names, k, j + 1)
  }

  // The table holds different names, taken from names, and the first of each of the first sixteen.
  ghost predicate Holds(table: seq<Name>, names: seq<Name>) {
    && |table| <= |names| && (forall t <- table :: t in names)
    && (forall i, j :: 0 <= i < j < |table| ==> !SameName(table[i], table[j]))
    && (forall k :: 0 <= k < |names| && k < 16 ==> names[FirstSame(names, k, 0)] in table)
  }

  lemma FirstSameMore(names: seq<Name>, n: Name, k: nat)
    requires k < |names|
    ensures FirstSame(names + [n], k, 0) == FirstSame(names, k, 0)
  {
    hide SameName;
    assert forall i :: 0 <= i <= k ==> (names + [n])[i] == names[i];
  }

  lemma InTableOnce(table: seq<Name>, x: Name, src: Name)
    requires x in table && SameName(x, src) && forall i, j :: 0 <= i < j < |table| ==> !SameName(table[i], table[j])
    ensures Find(table, src) < |table| && table[Find(table, src)] == x
  {
    hide SameName;
    var i := Find(table, src);
    var j :| 0 <= j < |table| && table[j] == x;
    assert i <= j;
    if i < j {
      SameNameSymmetric(table[j], src);
      SameNameTransitive(table[i], src, table[j]);
    }
  }

  // A name that comes for the first time is not in the table.
  lemma NotYet(table: seq<Name>, names: seq<Name>, n: Name)
    requires (forall t <- table :: t in names) && forall i :: 0 <= i < |names| ==> !SameName(names[i], n)
    ensures Find(table, n) == |table|
  {
    hide SameName;
    forall t <- table ensures !SameName(t, n) { var i :| 0 <= i < |names| && names[i] == t; }
  }

  lemma HoldsMore(table: seq<Name>, names: seq<Name>, n: Name)
    requires Holds(table, names)
    ensures var c := ApplyNameTable(table, n); var more := names + [n]; var r := FirstSame(more, |names|, 0);
      Holds(c.table, more) && (r < 16 ==> c.value == more[r])
  {
    hide SameName, FirstSame;
    var c, more, k := ApplyNameTable(table, n), names + [n], |names|;
    var r := FirstSame(more, k, 0);
    if r < k {
      FirstOfFirst(names, n, r);
      if r < 16 { InTableOnce(table, names[r], n); }
    } else {
      forall i | 0 <= i < k ensures !SameName(names[i], n) { assert more[i] == names[i]; }
      NotYet(table, names, n);
    }
    StaysApart(table, n);
    forall i | 0 <= i < |more| && i < 16 ensures more[FirstSame(more, i, 0)] in c.table {
      if i < k {
        FirstSameMore(names, n, i);
        assert names[FirstSame(names, i, 0)] in table;
      }
    }
  }

  lemma StaysApart(table: seq<Name>, n: Name)
    requires forall i, j :: 0 <= i < j < |table| ==> !SameName(table[i], table[j])
    ensures var t := ApplyNameTable(table, n).table;
      table <= t && (forall i, j :: 0 <= i < j < |t| ==> !SameName(t[i], t[j]))
  {
    hide SameName;
  }

  // The first of its kind is its own first.
  lemma FirstOfFirst(names: seq<Name>, n: Name, r: nat)
    requires r == FirstSame(names + [n], |names|, 0) < |names|
    ensures FirstSame(names, r, 0) == r
  {
    hide SameName;
    var q, more := FirstSame(names, r, 0), names + [n];
    assert more[q] == names[q] && more[r] == names[r];
    if q < r { SameNameTransitive(names[q], names[r], n); }
  }

  lemma {:induction false} NamesHold(names: seq<Name>)
    ensures Holds(CopyNames([], names).table, names)
  {
    if names != [] {
      var n := |names| - 1;
      NamesHold(names[..n]);
      HoldsMore(CopyNames([], names[..n]).table, names[..n], names[n]);
      assert names == names[..n] + [names[n]];
    }
  }

  lemma {:induction false} CopyPrefix(names: seq<Name>, k: nat)
    requires k < |names|
    ensures CopyNames([], names).value[k] == ApplyNameTable(CopyNames([], names[..k]).table, names[k]).value
    decreases |names|
  {
    hide ApplyNameTable;
    if k < |names| - 1 {
      CopyPrefix(names[..|names| - 1], k);
      assert names[..|names| - 1][..k] == names[..k];
    }
  }

  // Names that are the same up to case get one spelling, that of the first, if it is among the first sixteen.
  lemma OneSpelling(p: Packet, k: nat)
    requires k < |NamesIn(p)|
    ensures |NamesIn(DupForCache(p))| == |NamesIn(p)|
    ensures var names := NamesIn(p); var r := FirstSame(names, k, 0); r < 16 ==> NamesIn(DupForCache(p))[k] == names[r]
  {
    var names := NamesIn(p);
    hide ApplyNameTable, SameName;
    QueriesCopy([], p.q);
    RRsCopy(DupQueries([], p.q).table, p.ans);
    CopyAppend([], QueriesNames(p.q), RRsNames(p.ans));
    assert NamesIn(DupForCache(p)) == CopyNames([], names).value;
    hide NamesIn, CopyNames, FirstSame;
    CopyPrefix(names, k);
    NamesHold(names[..k]);
    HoldsMore(CopyNames([], names[..k]).table, names[..k], names[k]);
    PrefixFirst(names, k);
  }

  lemma PrefixFirst(names: seq<Name>, k: nat)
    requires k < |names|
    ensures FirstSame(names[..k] + [names[k]], k, 0) == FirstSame(names, k, 0)
  {
    hide SameName;
    var more := names[..k] + [names[k]];
    assert forall i :: 0 <= i <= k ==> more[i] == names[i];
  }

  // ---------------------------------------------------------------- the copying loops

  class NameTable {
    var names: seq<Name>

    constructor ()
      ensures names == []
    {
      names := [];
    }

    method Apply(src: Name) returns (dst: Name)
      modifies this
      ensures Copied(names, dst) == old(ApplyNameTable(names, src))
    {
      var i := 0;
      while i < |names| && !SameName(names[i], src)
        invariant 0 <= i <= |names|
        invariant forall j :: 0 <= j < i ==> !SameName(names[j], src)
      {
        i := i + 1;
      }
      assert i == Find(names, src);
      if i != |names| {
        return names[i];
      }
      dst := src;
      if |names| < MAX_NAMES {
        names := names + [dst];
      }
    }

    method CopyRR(src: RR) returns (dst: RR)
      modifies this
      ensures Copied(names, dst) == old(DupRR(names, src))
    {
      var name := Apply(src.name);
      dst := src.(name := name);
      if src.rtype == TYPE_SRV && src.rdata.Service? {
        var target := Apply(src.rdata.target);
        dst := dst.(rdata := src.rdata.(target := target));
      }
    }
  }

  method PacketDup(p: Packet) returns (dst: Packet)
    ensures dst == DupForCache(p)
  {
    var table := new NameTable();
    dst := Packet(p.id, p.flags, [], [], [], []);
    for i := 0 to |p.q|
      invariant Copied(table.names, dst.q) == DupQueries([], p.q[..i])
      invariant dst == Packet(p.id, p.flags, dst.q, [], [], [])
    {
      assert p.q[..i + 1][..i] == p.q[..i];
      var name := table.Apply(p.q[i].name);
      dst := dst.(q := dst.q + [p.q[i].(name := name)]);
    }
    assert p.q[..|p.q|] == p.q;
    ghost var names := table.names;
    for i := 0 to |p.ans|
      invariant Copied(table.names, dst.ans) == DupRRs(names, p.ans[..i])
      invariant dst == Packet(p.id, p.flags, DupQueries([], p.q).value, dst.ans, [], [])
    {
      assert p.ans[..i + 1][..i] == p.ans[..i];
      var rr := table.CopyRR(p.ans[i]);
      dst := dst.(ans := dst.ans + [rr]);
    }
    assert p.ans[..|p.ans|] == p.ans;
  }
}
