/** How much room print_packet asks for, and how much it uses. The size only decides whether a packet is
    printed; the four bytes after each question's name are not charged to it. */
module DnsRoom {
  import opened Bytes
  import opened DnsTypes
  import opened DnsName
  import opened DnsParser
  import opened DnsPrinter
  import opened DnsRoundTrip

  // ---------------------------------------------------------------- names and data

  lemma {:induction false} FindRoot(known: seq<Name>, i: nat)
    requires i <= |known|
    ensures Find(known, i, []) < |known| <==> [] in known[i..]
    decreases |known| - i
  {
    if i < |known| {
      assert known[i..] == [known[i]] + known[i + 1..];
      assert |TabText(known[i])| == |known[i]|;
      FindRoot(known, i + 1);
    }
  }

  lemma NameBySize(pos: nat, s1: nat, s2: nat, name: Name, tab: seq<Entry>)
    requires PrintName(pos, s1, name, tab).Output?
    ensures var o := PrintName(pos, s1, name, tab);
      && (PrintName(pos, s2, name, tab) == o || PrintName(pos, s2, name, tab).Failed?)
      && (s2 >= |o.bytes| ==> PrintName(pos, s2, name, tab) == o)
      && NamesOf(o.tab) == Note(NamesOf(tab), name)
  {
    hide Wire, Find, W16;
    var o := PrintName(pos, s1, name, tab);
    if o.tab != tab { assert NamesOf(o.tab) == NamesOf(tab) + [name]; }
  }

  // The data of the record is a root name, possibly with fields in front.
  predicate EndsInRoot(r: RR)
    requires RROk(r)
  {
    (NameType(r.rtype) && r.rdata.name == []) || (r.rtype == TYPE_SRV && r.rdata.target == [])
  }

  // One byte more is asked for than a root name takes when it is not compressed.
  lemma FieldsBySize(pos: nat, s1: nat, s2: nat, fields: seq<byte>, name: Name, tab: seq<Entry>)
    requires PrintFields(pos, s1, fields, name, tab).Output?
    ensures var o := PrintFields(pos, s1, fields, name, tab);
      PrintFields(pos, s2, fields, name, tab) == if s2 >= |o.bytes| + (if name == [] && [] !in NamesOf(tab) then 1 else 0) then o else Failed
  {
    hide PrintName, PrintFields, NamesOf;
    var gap := |fields| + 2;
    FieldsUnfold(pos, s1, fields, name, tab);
    FieldsUnfold(pos, s2, fields, name, tab);
    NameBytes(pos + gap, s1 - gap, name, tab);
    if s2 >= |fields| + 4 {
      NameBySize(pos + gap, s1 - gap, s2 - gap, name, tab);
    }
  }

  // The fields with their length in front, then the name.
  function WithFields(fields: seq<byte>, n: Output): (o: Output)
    ensures n.Output? ==> o.Output? && |o.bytes| == |fields| + 2 + |n.bytes|
    ensures n.Failed? ==> o.Failed?
  {
    if n.Failed? then Failed else Output(W16(ToWord(|n.bytes| + |fields|)) + fields + n.bytes, n.tab)
  }

  lemma FieldsUnfold(pos: nat, size: nat, fields: seq<byte>, name: Name, tab: seq<Entry>)
    ensures PrintFields(pos, size, fields, name, tab) ==
      if size < |fields| + 4 then Failed else WithFields(fields, PrintName(pos + |fields| + 2, size - |fields| - 2, name, tab))
  {
    hide PrintName, W16, ToWord;
    if size >= |fields| + 4 { assert pos + (|fields| + 2) == pos + |fields| + 2 && size - (|fields| + 2) == size - |fields| - 2; }
  }

  // A printed name takes two bytes or more, unless it is a root that is not compressed.
  lemma NameBytes(pos: nat, size: nat, name: Name, tab: seq<Entry>)
    requires PrintName(pos, size, name, tab).Output?
    ensures var o := PrintName(pos, size, name, tab);
      if name == [] && [] !in NamesOf(tab) then |o.bytes| == 1 else |o.bytes| >= 2
  {
    WireSize(name);
    FindRoot(NamesOf(tab), 0);
    assert NamesOf(tab)[0..] == NamesOf(tab);
    hide Wire, Find, NamesOf;
  }

  lemma DataBySize(pos: nat, s1: nat, s2: nat, r: RR, tab: seq<Entry>)
    requires RROk(r) && PrintRData(pos, s1, r, tab).Output?
    ensures var o := PrintRData(pos, s1, r, tab);
      PrintRData(pos, s2, r, tab) == if s2 >= |o.bytes| + (if EndsInRoot(r) && [] !in NamesOf(tab) then 1 else 0) then o else Failed
  {
    if NameType(r.rtype) {
      FieldsBySize(pos, s1, s2, [], r.rdata.name, tab);
    } else if r.rtype == TYPE_SRV {
      FieldsBySize(pos, s1, s2, Fixed3(r.rdata), r.rdata.target, tab);
    }
    hide PrintFields, W16, NamesOf;
  }

  // ---------------------------------------------------------------- records

  function RRSlack(r: RR, known: seq<Name>): (k: nat)
    requires RROk(r)
    ensures k <= 1
  {
    if EndsInRoot(r) && [] !in Note(known, r.name) then 1 else 0
  }

  lemma RRBySize(pos: nat, s1: nat, s2: nat, r: RR, tab: seq<Entry>)
    requires RROk(r) && PrintRR(pos, s1, r, tab).Output?
    ensures var o := PrintRR(pos, s1, r, tab);
      PrintRR(pos, s2, r, tab) == if s2 >= |o.bytes| + RRSlack(r, NamesOf(tab)) then o else Failed
  {
    hide PrintName, PrintRData, FixedRR, Note, NamesOf, EndsInRoot;
    var n := PrintName(pos, s1, r.name, tab);
    NameBySize(pos, s1, s2, r.name, tab);
    if s2 >= |n.bytes| + 8 {
      DataBySize(pos + |n.bytes| + 8, s1 - |n.bytes| - 8, s2 - |n.bytes| - 8, r, n.tab);
    }
  }

  // The names that a record notes.
  lemma DataNotes(pos: nat, size: nat, r: RR, tab: seq<Entry>)
    requires RROk(r) && PrintRData(pos, size, r, tab).Output?
    ensures NamesOf(PrintRData(pos, size, r, tab).tab) == NoteAll(NamesOf(tab), DataNames(r))
  {
    hide Note, W16, NamesOf;
    if NameType(r.rtype) {
      NameBySize(pos + 2, size - 2, size - 2, r.rdata.name, tab);
      OneName(NamesOf(tab), r.rdata.name);
    } else if r.rtype == TYPE_SRV {
      NameBySize(pos + 8, size - 8, size - 8, r.rdata.target, tab);
      OneName(NamesOf(tab), r.rdata.target);
    }
    hide PrintName, Fixed3;
  }

  lemma RRNotes(pos: nat, size: nat, r: RR, tab: seq<Entry>)
    requires RROk(r) && PrintRR(pos, size, r, tab).Output?
    ensures NamesOf(PrintRR(pos, size, r, tab).tab) == NoteAll(NamesOf(tab), RRNames(r))
  {
    hide PrintName, PrintRData, FixedRR, Note, NamesOf, DataNames, AllSurvive, NoteAll;
    var n := PrintName(pos, size, r.name, tab);
    NameBySize(pos, size, size, r.name, tab);
    DataNotes(pos + |n.bytes| + 8, size - |n.bytes| - 8, r, n.tab);
    OneName(NamesOf(tab), r.name);
    AllSurviveSplit(NamesOf(tab), [r.name], DataNames(r));
  }

  // Only the last record can ask for more than it takes.
  function RRsSlack(rs: seq<RR>, known: seq<Name>): (k: nat)
    requires RRsOk(rs)
    ensures k <= 1
    decreases |rs|
  {
    if rs == [] then 0
    else if |rs| == 1 then RRSlack(rs[0], known)
    else RRsSlack(rs[1..], NoteAll(known, RRNames(rs[0])))
  }

  lemma RRLeast(pos: nat, size: nat, r: RR, tab: seq<Entry>)
    requires RROk(r) && PrintRR(pos, size, r, tab).Output?
    ensures |PrintRR(pos, size, r, tab).bytes| >= 8
  {}

  lemma RRsLeast(pos: nat, size: nat, rs: seq<RR>, tab: seq<Entry>)
    requires RRsOk(rs) && rs != [] && PrintRRs(pos, size, rs, tab).Output?
    ensures |PrintRRs(pos, size, rs, tab).bytes| >= 8
  {
    hide PrintRR;
    RRLeast(pos, size, rs[0], tab);
  }

  // One record, then the rest.
  function Then(o: Output, rest: Output): Output {
    if o.Failed? || rest.Failed? then Failed else Output(o.bytes + rest.bytes, rest.tab)
  }

  lemma RRsUnfold(pos: nat, size: nat, rs: seq<RR>, tab: seq<Entry>)
    requires RRsOk(rs) && rs != []
    ensures var r := PrintRR(pos, size, rs[0], tab);
      PrintRRs(pos, size, rs, tab) == if r.Failed? then Failed else Then(r, PrintRRs(pos + |r.bytes|, size - |r.bytes|, rs[1..], r.tab))
  {
    hide PrintRR, RROk;
  }

  lemma SlackUnfold(rs: seq<RR>, known: seq<Name>)
    requires RRsOk(rs) && rs != []
    ensures RRsSlack(rs, known) == if |rs| == 1 then RRSlack(rs[0], known) else RRsSlack(rs[1..], NoteAll(known, RRNames(rs[0])))
  {
    hide RRSlack, NoteAll, RRNames, RROk;
  }

  lemma NoRRs(pos: nat, size: nat, tab: seq<Entry>)
    ensures PrintRRs(pos, size, [], tab) == Output([], tab) && RRsSlack([], NamesOf(tab)) == 0
  {}

  lemma {:induction false} RRsBySize(pos: nat, s1: nat, s2: nat, rs: seq<RR>, tab: seq<Entry>)
    requires RRsOk(rs) && PrintRRs(pos, s1, rs, tab).Output?
    ensures var o := PrintRRs(pos, s1, rs, tab);
      PrintRRs(pos, s2, rs, tab) == if s2 >= |o.bytes| + RRsSlack(rs, NamesOf(tab)) then o else Failed
    decreases |rs|
  {
    hide PrintRRs, PrintRR, RRsSlack, RRSlack, NamesOf, NoteAll, RRNames;
    if rs == [] {
      NoRRs(pos, s1, tab);
      NoRRs(pos, s2, tab);
    } else {
      var r := PrintRR(pos, s1, rs[0], tab);
      RRsUnfold(pos, s1, rs, tab);
      RRsUnfold(pos, s2, rs, tab);
      SlackUnfold(rs, NamesOf(tab));
      RRBySize(pos, s1, s2, rs[0], tab);
      RRNotes(pos, s1, rs[0], tab);
      hide RROk;
      if |rs| > 1 { RRsLeast(pos + |r.bytes|, s1 - |r.bytes|, rs[1..], r.tab); } else { NoRRs(pos + |r.bytes|, s1 - |r.bytes|, r.tab); }
      if s2 >= |r.bytes| {
        RRsBySize(pos + |r.bytes|, s1 - |r.bytes|, s2 - |r.bytes|, rs[1..], r.tab);
      }
    }
  }

  // ---------------------------------------------------------------- questions

  lemma QueryBySize(pos: nat, s1: nat, s2: nat, q: Query, tab: seq<Entry>)
    requires QueryOk(q) && PrintQuery(pos, s1, q, tab).Output?
    ensures var o := PrintQuery(pos, s1, q, tab); PrintQuery(pos, s2, q, tab) == if s2 >= |o.bytes| then o else Failed
  {
    NameBySize(pos, s1, s2, q.name, tab);
    hide PrintName, W16;
  }

  // The last question needs four bytes that are left over.
  function QueriesSlack(n: nat): nat { if n == 0 then 0 else 4 }

  lemma QueriesUnfold(pos: nat, size: nat, qs: seq<Query>, tab: seq<Entry>)
    requires QueriesOk(qs) && qs != []
    ensures var q := PrintQuery(pos, size, qs[0], tab);
      PrintQueries(pos, size, qs, tab) == if q.Failed? then Failed else Then(q, PrintQueries(pos + |q.bytes|, size - (|q.bytes| - 4), qs[1..], q.tab))
  {
    hide PrintQuery, QueryOk;
  }

  lemma NoQueries(pos: nat, size: nat, tab: seq<Entry>)
    ensures PrintQueries(pos, size, [], tab) == Output([], tab)
  {}

  lemma {:induction false} QueriesBySize(pos: nat, s1: nat, s2: nat, qs: seq<Query>, tab: seq<Entry>)
    requires QueriesOk(qs) && PrintQueries(pos, s1, qs, tab).Output?
    ensures var o := PrintQueries(pos, s1, qs, tab);
      PrintQueries(pos, s2, qs, tab) == if s2 >= |o.bytes| - 4 * |qs| + QueriesSlack(|qs|) then o else Failed
    decreases |qs|
  {
    hide PrintQueries, PrintQuery;
    if qs == [] {
      NoQueries(pos, s1, tab);
      NoQueries(pos, s2, tab);
    } else {
      var q := PrintQuery(pos, s1, qs[0], tab);
      QueriesUnfold(pos, s1, qs, tab);
      QueriesUnfold(pos, s2, qs, tab);
      QueryBySize(pos, s1, s2, qs[0], tab);
      if |qs| == 1 { NoQueries(pos + |q.bytes|, s1 - (|q.bytes| - 4), q.tab); }
      if s2 >= |q.bytes| - 4 {
        QueriesBySize(pos + |q.bytes|, s1 - (|q.bytes| - 4), s2 - (|q.bytes| - 4), qs[1..], q.tab);
      }
    }
  }

  lemma {:induction false} QueriesNote(pos: nat, size: nat, qs: seq<Query>, tab: seq<Entry>)
    requires QueriesOk(qs) && PrintQueries(pos, size, qs, tab).Output?
    ensures NamesOf(PrintQueries(pos, size, qs, tab).tab) == NoteAll(NamesOf(tab), QueryNames(qs))
    decreases |qs|
  {
    hide PrintQueries, PrintQuery, NamesOf, Note;
    if qs == [] {
      NoQueries(pos, size, tab);
    } else {
      var q := PrintQuery(pos, size, qs[0], tab);
      QueriesUnfold(pos, size, qs, tab);
      QueryNotes(pos, size, qs[0], tab);
      QueriesNote(pos + |q.bytes|, size - (|q.bytes| - 4), qs[1..], q.tab);
      assert QueryNames(qs)[1..] == QueryNames(qs[1..]);
    }
  }

  lemma QueryNotes(pos: nat, size: nat, q: Query, tab: seq<Entry>)
    requires QueryOk(q) && PrintQuery(pos, size, q, tab).Output?
    ensures NamesOf(PrintQuery(pos, size, q, tab).tab) == Note(NamesOf(tab), q.name)
  {
    hide PrintName, W16, Note, NamesOf;
    NameBySize(pos, size, size, q.name, tab);
  }

  // ---------------------------------------------------------------- packets

  function Records(p: Packet): seq<RR> { p.ans + p.ns + p.arr }

  lemma {:induction false} RRsAppend(pos: nat, size: nat, a: seq<RR>, b: seq<RR>, tab: seq<Entry>)
    requires RRsOk(a) && RRsOk(b) && RRsOk(a + b)
    ensures var o := PrintRRs(pos, size, a, tab);
      PrintRRs(pos, size, a + b, tab) == if o.Failed? then Failed else Then(o, PrintRRs(pos + |o.bytes|, size - |o.bytes|, b, o.tab))
    decreases |a|
  {
    hide PrintRRs, PrintRR;
    if a == [] {
      assert a + b == b;
      NoRRs(pos, size, tab);
    } else {
      assert (a + b)[0] == a[0] && (a + b)[1..] == a[1..] + b;
      var r := PrintRR(pos, size, a[0], tab);
      RRsUnfold(pos, size, a, tab);
      RRsUnfold(pos, size, a + b, tab);
      hide RROk;
      if r.Output? {
        var p, s := pos + |r.bytes|, size - |r.bytes|;
        RRsAppend(p, s, a[1..], b, r.tab);
        var o := PrintRRs(p, s, a[1..], r.tab);
        if o.Output? { ThenThen(r, o, PrintRRs(p + |o.bytes|, s - |o.bytes|, b, o.tab)); }
      }
    }
  }

  lemma ThenThen(a: Output, b: Output, c: Output)
    ensures Then(a, Then(b, c)) == Then(Then(a, b), c)
  {
    if a.Output? && b.Output? && c.Output? { Regroup([], a.bytes, b.bytes, c.bytes); }
  }

  lemma RecordsAreOne(pos: nat, size: nat, p: Packet, tab: seq<Entry>)
    requires PacketOk(p) && RRsOk(Records(p))
    ensures PrintRecords(pos, size, p, tab) == PrintRRs(pos, size, Records(p), tab)
  {
    hide PrintRRs, QueriesOk;
    var a := PrintRRs(pos, size, p.ans, tab);
    RRsAppend(pos, size, p.ans + p.ns, p.arr, tab);
    RRsAppend(pos, size, p.ans, p.ns, tab);
  }

  lemma RecordsOk(p: Packet)
    requires PacketOk(p)
    ensures RRsOk(Records(p))
  {}

  // What a packet asks for beyond the bytes that are charged.
  function Slack(p: Packet): (k: nat)
    requires PacketOk(p)
    ensures k <= 4
  {
    RecordsOk(p);
    if Records(p) == [] then QueriesSlack(|p.q|) else RRsSlack(Records(p), NoteAll([], QueryNames(p.q)))
  }

  // A packet that prints at some size prints at exactly the sizes from the bytes charged plus the slack,
  // and to the same bytes.
  lemma PrintsExactly(p: Packet, s1: nat, s2: nat)
    requires PacketOk(p) && PrintPacket(p, s1).Output?
    ensures var o := PrintPacket(p, s1);
      PrintPacket(p, s2) == if s2 >= |o.bytes| - 4 * |p.q| + Slack(p) then o else Failed
  {
    hide PrintQueries, PrintRecords, PrintRRs, RRsOk, QueriesOk, Header, NoteAll, QueryNames, RRsSlack, Records;
    RecordsOk(p);
    var q := PrintQueries(HEADER, s1 - HEADER, p.q, []);
    var rest := s1 - HEADER - (|q.bytes| - 4 * |p.q|);
    RecordsAreOne(HEADER + |q.bytes|, rest, p, q.tab);
    QueriesNote(HEADER, s1 - HEADER, p.q, []);
    assert NamesOf([]) == [];
    if Records(p) != [] {
      RRsLeast(HEADER + |q.bytes|, rest, Records(p), q.tab);
    } else {
      NoRRs(HEADER + |q.bytes|, rest, q.tab);
    }
    if s2 >= HEADER {
      QueriesBySize(HEADER, s1 - HEADER, s2 - HEADER, p.q, []);
      var rest2 := s2 - HEADER - (|q.bytes| - 4 * |p.q|);
      if rest2 >= 0 {
        RecordsAreOne(HEADER + |q.bytes|, rest2, p, q.tab);
        RRsBySize(HEADER + |q.bytes|, rest, rest2, Records(p), q.tab);
      }
    }
  }

  // The printer can go beyond the size it was given if and only if there are two questions, or one and
  // some record; it does so for exactly these sizes.
  lemma OverrunsExactly(p: Packet, s1: nat)
    requires PacketOk(p) && PrintPacket(p, s1).Output?
    ensures var n := |PrintPacket(p, s1).bytes|;
      && (forall size: nat :: PrintPacket(p, size).Output? && |PrintPacket(p, size).bytes| > size <==> n - 4 * |p.q| + Slack(p) <= size < n)
      && (n - 4 * |p.q| + Slack(p) < n <==> |p.q| >= 2 || (|p.q| == 1 && Records(p) != []))
  {
    forall size: nat ensures PrintPacket(p, size).Output? <==> size >= |PrintPacket(p, s1).bytes| - 4 * |p.q| + Slack(p) {
      PrintsExactly(p, s1, size);
    }
    forall size: nat | PrintPacket(p, size).Output? ensures PrintPacket(p, size) == PrintPacket(p, s1) {
      PrintsExactly(p, s1, size);
    }
  }

  // ---------------------------------------------------------------- what can be printed at all

  predicate IsPrintable(rtype: nat) { rtype in {1, 2, 5, 12, 28, 33} }

  // As much as a record can take.
  function RRBound(r: RR): nat
    requires RROk(r)
  {
    |r.name| + 2 + 8 + if NameType(r.rtype) then |r.rdata.name| + 4 else if r.rtype == TYPE_SRV then |r.rdata.target| + 10 else 18
  }

  lemma FieldsPrint(pos: nat, size: nat, fields: seq<byte>, name: Name, tab: seq<Entry>)
    requires size >= |fields| + |name| + 4
    ensures var o := PrintFields(pos, size, fields, name, tab); o.Output? && |o.bytes| <= |fields| + |name| + 4
  {
    WireSize(name);
    hide Wire, Find, W16, ToWord;
  }

  lemma RRPrints(pos: nat, size: nat, r: RR, tab: seq<Entry>)
    requires RROk(r) && size >= RRBound(r)
    ensures var o := PrintRR(pos, size, r, tab);
      if IsPrintable(r.rtype) then o.Output? && |o.bytes| <= RRBound(r) else o.Failed?
  {
    WireSize(r.name);
    hide Wire, Find, PrintFields, W16, FixedRR;
    var n := PrintName(pos, size, r.name, tab);
    var p, s := pos + |n.bytes| + 8, size - |n.bytes| - 8;
    if NameType(r.rtype) {
      FieldsPrint(p, s, [], r.rdata.name, n.tab);
    } else if r.rtype == TYPE_SRV {
      FieldsPrint(p, s, Fixed3(r.rdata), r.rdata.target, n.tab);
    }
    hide Fixed3;
  }

  lemma OtherFails(pos: nat, size: nat, r: RR, tab: seq<Entry>)
    requires RROk(r) && !IsPrintable(r.rtype)
    ensures PrintRR(pos, size, r, tab).Failed?
  {
    hide PrintName, FixedRR;
  }

  function RRsBound(rs: seq<RR>): nat
    requires RRsOk(rs)
  {
    if rs == [] then 0 else RRBound(rs[0]) + RRsBound(rs[1..])
  }

  lemma {:induction false} RRsPrint(pos: nat, size: nat, rs: seq<RR>, tab: seq<Entry>)
    requires RRsOk(rs) && size >= RRsBound(rs) && forall i :: 0 <= i < |rs| ==> IsPrintable(rs[i].rtype)
    ensures PrintRRs(pos, size, rs, tab).Output?
    decreases |rs|
  {
    hide PrintRR, RRBound, PrintRRs;
    if rs == [] {
      NoRRs(pos, size, tab);
    } else {
      RRsUnfold(pos, size, rs, tab);
      RRPrints(pos, size, rs[0], tab);
      var r := PrintRR(pos, size, rs[0], tab);
      RRsPrint(pos + |r.bytes|, size - |r.bytes|, rs[1..], r.tab);
    }
  }

  lemma {:induction false} OthersFail(pos: nat, size: nat, rs: seq<RR>, tab: seq<Entry>, i: nat)
    requires RRsOk(rs) && i < |rs| && !IsPrintable(rs[i].rtype)
    ensures PrintRRs(pos, size, rs, tab).Failed?
    decreases i
  {
    hide PrintRR, PrintRRs;
    RRsUnfold(pos, size, rs, tab);
    if i == 0 {
      OtherFails(pos, size, rs[0], tab);
    } else {
      var r := PrintRR(pos, size, rs[0], tab);
      if r.Output? { OthersFail(pos + |r.bytes|, size - |r.bytes|, rs[1..], r.tab, i - 1); }
    }
  }

  function QueriesBound(qs: seq<Query>): nat { if qs == [] then 0 else |qs[0].name| + 6 + QueriesBound(qs[1..]) }

  lemma {:induction false} QueriesPrint(pos: nat, size: nat, qs: seq<Query>, tab: seq<Entry>)
    requires QueriesOk(qs) && size >= QueriesBound(qs)
    ensures var o := PrintQueries(pos, size, qs, tab); o.Output? && |o.bytes| <= QueriesBound(qs)
    decreases |qs|
  {
    hide PrintQuery, PrintQueries;
    if qs == [] {
      NoQueries(pos, size, tab);
    } else {
      QueriesUnfold(pos, size, qs, tab);
      QueryFits(pos, size, qs[0], tab);
      var q := PrintQuery(pos, size, qs[0], tab);
      QueriesPrint(pos + |q.bytes|, size - (|q.bytes| - 4), qs[1..], q.tab);
    }
  }

  // A packet prints, if there is room, if and only if all its records are of types that can be printed.
  lemma PrintableExactly(p: Packet)
    requires PacketOk(p)
    ensures (exists size: nat :: PrintPacket(p, size).Output?) <==> forall i :: 0 <= i < |Records(p)| ==> IsPrintable(Records(p)[i].rtype)
  {
    RecordsOk(p);
    if forall i :: 0 <= i < |Records(p)| ==> IsPrintable(Records(p)[i].rtype) {
      EnoughRoom(p, HEADER + QueriesBound(p.q) + RRsBound(Records(p)));
    }
    forall i, size: nat | 0 <= i < |Records(p)| && !IsPrintable(Records(p)[i].rtype) ensures PrintPacket(p, size).Failed? {
      NeverPrints(p, size, i);
    }
  }

  lemma EnoughRoom(p: Packet, size: nat)
    requires PacketOk(p) && RRsOk(Records(p)) && size >= HEADER + QueriesBound(p.q) + RRsBound(Records(p))
    requires forall i :: 0 <= i < |Records(p)| ==> IsPrintable(Records(p)[i].rtype)
    ensures PrintPacket(p, size).Output?
  {
    hide PrintQueries, PrintRecords, PrintRRs, RRsOk, QueriesOk, Header, Records, QueriesBound, RRsBound, IsPrintable;
    QueriesPrint(HEADER, size - HEADER, p.q, []);
    var q := PrintQueries(HEADER, size - HEADER, p.q, []);
    var rest := size - HEADER - (|q.bytes| - 4 * |p.q|);
    RecordsAreOne(HEADER + |q.bytes|, rest, p, q.tab);
    RRsPrint(HEADER + |q.bytes|, rest, Records(p), q.tab);
  }

  lemma NeverPrints(p: Packet, size: nat, i: nat)
    requires PacketOk(p) && RRsOk(Records(p)) && i < |Records(p)| && !IsPrintable(Records(p)[i].rtype)
    ensures PrintPacket(p, size).Failed?
  {
    hide PrintQueries, PrintRecords, PrintRRs, RRsOk, QueriesOk, Header, Records, IsPrintable;
    if size >= HEADER {
      var q := PrintQueries(HEADER, size - HEADER, p.q, []);
      if q.Output? {
        var rest := size - HEADER - (|q.bytes| - 4 * |p.q|);
        RecordsAreOne(HEADER + |q.bytes|, rest, p, q.tab);
        OthersFail(HEADER + |q.bytes|, rest, Records(p), q.tab, i);
      }
    }
  }

  function RootQuestions(): (p: Packet)
    ensures PacketOk(p)
  {
    Packet(1, 0, [Query([], TYPE_A, 1), Query([], TYPE_A, 1)], [], [], [])
  }

  // For instance two questions for the root take 23 bytes and are printed into 19.
  lemma RootQuestionsOverrun()
    ensures PrintPacket(RootQuestions(), 19).Output? && |PrintPacket(RootQuestions(), 19).bytes| == 23
  {
    var p := RootQuestions();
    assert p.q[1..] == [p.q[1]] && p.q[1..][1..] == [];
    var q := PrintQuery(HEADER, 7, p.q[0], []);
    assert q.Output? && |q.bytes| == 5 && q.tab == [Entry(HEADER, [])];
    var q2 := PrintQuery(HEADER + 5, 6, p.q[1], q.tab);
    assert q2.Output? && |q2.bytes| == 6 by { assert Find(NamesOf(q.tab), 0, []) == 0; }
    hide PrintQuery, PrintQueries, PrintRRs;
    QueriesUnfold(HEADER, 7, p.q, []);
    QueriesUnfold(HEADER + 5, 6, p.q[1..], q.tab);
    NoQueries(HEADER + 11, 4, q2.tab);
    NoRRs(HEADER + 11, 4, q2.tab);
  }
}
