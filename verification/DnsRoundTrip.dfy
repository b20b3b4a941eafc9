/** Parsing what the printer printed: exactly which packets come back unchanged. */
module DnsRoundTrip {
  import opened Bytes
  import opened DnsTypes
  import opened DnsName
  import opened DnsParser
  import opened DnsPrinter

  // ---------------------------------------------------------------- which names survive

  // The names printed in full after one more.
  function Note(known: seq<Name>, n: Name): seq<Name> {
    if Find(known, 0, n) < |known| || |known| >= 32 then known else known + [n]
  }

  // The name that n would be compressed to is n itself; if there is none, n is well formed.
  predicate Survives(known: seq<Name>, n: Name) {
    var i := Find(known, 0, n);
    if i < |known| then known[i] == n else WellFormed(n)
  }

  function NoteAll(known: seq<Name>, names: seq<Name>): seq<Name>
    decreases |names|
  {
    if names == [] then known else NoteAll(Note(known, names[0]), names[1..])
  }

  predicate AllSurvive(known: seq<Name>, names: seq<Name>)
    decreases |names|
  {
    names == [] || (Survives(known, names[0]) && AllSurvive(Note(known, names[0]), names[1..]))
  }

  lemma {:induction false} AllSurviveSplit(known: seq<Name>, a: seq<Name>, b: seq<Name>)
    ensures AllSurvive(known, a + b) <==> AllSurvive(known, a) && AllSurvive(NoteAll(known, a), b)
    ensures NoteAll(known, a + b) == NoteAll(NoteAll(known, a), b)
    decreases |a|
  {
    hide Survives, Note;
    if a == [] {
      assert a + b == b;
    } else {
      assert (a + b)[0] == a[0] && (a + b)[1..] == a[1..] + b;
      AllSurviveSplit(Note(known, a[0]), a[1..], b);
    }
  }

  // ---------------------------------------------------------------- fields

  lemma R16At(pkt: seq<byte>, p: nat, v: nat)
    requires v < 0x10000 && At(pkt, p, W16(v))
    ensures R16(pkt, p) == v
  {
    assert W16(v)[0] == v / 256 && W16(v)[1] == v % 256;
  }

  lemma R32At(pkt: seq<byte>, p: nat, v: nat)
    requires v < 0x100000000 && At(pkt, p, W32(v))
    ensures R32(pkt, p) == v
  {
    AtSplit(pkt, p, W16(v / 65536), W16(v % 65536));
    R16At(pkt, p, v / 65536);
    R16At(pkt, p + 2, v % 65536);
  }

  // ---------------------------------------------------------------- names

  ghost predicate TabGood(pkt: seq<byte>, tab: seq<Entry>) {
    TabAt(pkt, tab) && forall i :: 0 <= i < |tab| ==> WellFormed(tab[i].name)
  }

  lemma PointerAt(pkt: seq<byte>, pos: nat, target: nat)
    requires target < 0x4000 && At(pkt, pos, W16(PointerTo(target)))
    ensures pos + 1 < |pkt| && pkt[pos] >= 0xC0 && Offset(pkt[pos], pkt[pos + 1]) == target
  {
    var w := PointerTo(target);
    assert W16(w)[0] == w / 256 && W16(w)[1] == w % 256;
  }

  // A pointer to a name printed in full reads as that name.
  lemma ReadPointer(pkt: seq<byte>, pos: nat, target: nat, n: Name)
    requires |pkt| <= 0x4000 && At(pkt, pos, W16(PointerTo(target))) && At(pkt, target, Full(n)) && WellFormed(n)
    ensures ReadName(pkt, pos, 0) == GoodName(n, 2)
  {
    PointerAt(pkt, pos, target);
    ReadPrinted(pkt, target, 1, n);
    assert ReadName(pkt, target, 1) == ReadLabels(pkt, target, 1);
    assert ReadName(pkt, pos, 0) == ReadLabels(pkt, pos, 0);
  }

  // A printed name reads back exactly when it survives.
  lemma NameBack(pkt: seq<byte>, pos: nat, size: nat, name: Name, tab: seq<Entry>)
    requires |pkt| <= 0x4000 && TabGood(pkt, tab)
    requires var o := PrintName(pos, size, name, tab); o.Output? && At(pkt, pos, o.bytes)
    ensures var r := ReadName(pkt, pos, 0); var o := PrintName(pos, size, name, tab);
      && (r.GoodName? && r.name == name <==> Survives(NamesOf(tab), name))
      && (Survives(NamesOf(tab), name) ==> r.parsed == |o.bytes| && TabGood(pkt, o.tab) && NamesOf(o.tab) == Note(NamesOf(tab), name))
  {
    hide Wire, ReadName, ReadLabels, WellFormed;
    var i := Find(NamesOf(tab), 0, name);
    if i < |tab| {
      ReadPointer(pkt, pos, tab[i].pos, tab[i].name);
    } else {
      ReadFull(pkt, pos, name);
    }
  }

  lemma ReadFull(pkt: seq<byte>, pos: nat, name: Name)
    requires At(pkt, pos, Full(name))
    ensures var r := ReadName(pkt, pos, 0);
      && (r.GoodName? && r.name == name <==> WellFormed(name))
      && (WellFormed(name) ==> r.parsed == |Full(name)|)
  {
    ReadPrinted(pkt, pos, 0, name);
    if WellFormed(name) { FullSize(name); }
  }

  // ---------------------------------------------------------------- questions and records

  // A printed item comes back, and takes its own size, exactly when its names survive; the table then
  // describes the packet up to there.
  ghost predicate Back(pkt: seq<byte>, tab: seq<Entry>, o: Output, same: bool, len: nat, names: seq<Name>)
    requires o.Output?
  {
    && (same <==> AllSurvive(NamesOf(tab), names))
    && (same ==> len == |o.bytes| && TabGood(pkt, o.tab) && NamesOf(o.tab) == NoteAll(NamesOf(tab), names))
  }

  lemma OneName(known: seq<Name>, n: Name)
    ensures AllSurvive(known, [n]) <==> Survives(known, n)
    ensures NoteAll(known, [n]) == Note(known, n)
  {
    assert [n][1..] == [];
    assert AllSurvive(known, [n]) <==> Survives(known, n) && AllSurvive(Note(known, n), []);
    assert NoteAll(known, [n]) == NoteAll(Note(known, n), []);
  }

  function LenOf<T>(r: Parsed<T>): nat { if r.Done? then r.len else 0 }

  predicate SameQuery(r: Parsed<Query>, q: Query) { r.Done? && r.value == q }

  lemma QueryBack(pkt: seq<byte>, pos: nat, size: nat, q: Query, tab: seq<Entry>)
    requires |pkt| <= 0x4000 && TabGood(pkt, tab) && QueryOk(q)
    requires var o := PrintQuery(pos, size, q, tab); o.Output? && At(pkt, pos, o.bytes)
    ensures var r := ParseQuery(pkt, pos);
      Back(pkt, tab, PrintQuery(pos, size, q, tab), SameQuery(r, q), LenOf(r), [q.name])
  {
    hide ReadName, PrintName, Survives, Note, TabGood, AllSurvive, NoteAll, W16, R16;
    OneName(NamesOf(tab), q.name);
    var n := PrintName(pos, size, q.name, tab);
    AtSplit(pkt, pos, n.bytes, W16(q.qtype) + W16(q.qclass));
    NameBack(pkt, pos, size, q.name, tab);
    if Survives(NamesOf(tab), q.name) {
      AtSplit(pkt, pos + |n.bytes|, W16(q.qtype), W16(q.qclass));
      R16At(pkt, pos + |n.bytes|, q.qtype);
      R16At(pkt, pos + |n.bytes| + 2, q.qclass);
    }
  }

  function DataNames(r: RR): seq<Name>
    requires RROk(r)
  {
    if NameType(r.rtype) then [r.rdata.name] else if r.rtype == TYPE_SRV then [r.rdata.target] else []
  }

  predicate SameData(r: Parsed<RData>, d: RData) { r.Done? && r.value == d }

  // Length field, fields and name of printed data.
  lemma FieldsAt(pkt: seq<byte>, pos: nat, size: nat, fields: seq<byte>, name: Name, tab: seq<Entry>)
    requires |pkt| <= 0x4000
    requires var o := PrintFields(pos, size, fields, name, tab); o.Output? && At(pkt, pos, o.bytes)
    ensures var p := pos + 2 + |fields|; var o := PrintFields(pos, size, fields, name, tab);
      var n := PrintName(p, size - |fields| - 2, name, tab);
      && n.Output? && At(pkt, p, n.bytes) && At(pkt, pos + 2, fields) && o.tab == n.tab
      && |o.bytes| == 2 + |fields| + |n.bytes| && R16(pkt, pos) == |o.bytes| - 2
  {
    hide PrintName, W16, R16;
    var n := PrintName(pos + 2 + |fields|, size - |fields| - 2, name, tab);
    var w := ToWord(|n.bytes| + |fields|);
    AtSplit(pkt, pos, W16(w) + fields, n.bytes);
    AtSplit(pkt, pos, W16(w), fields);
    R16At(pkt, pos, w);
  }

  lemma TargetBack(pkt: seq<byte>, pos: nat, size: nat, r: RR, tab: seq<Entry>)
    requires |pkt| <= 0x4000 && TabGood(pkt, tab) && RROk(r) && NameType(r.rtype)
    requires var o := PrintRData(pos, size, r, tab); o.Output? && At(pkt, pos, o.bytes)
    ensures DataBack(pkt, pos, PrintRData(pos, size, r, tab), r, tab)
  {
    hide ReadName, PrintName, Survives, Note, TabGood, AllSurvive, NoteAll, W16, R16;
    FieldsAt(pkt, pos, size, [], r.rdata.name, tab);
    OneName(NamesOf(tab), r.rdata.name);
    NameBack(pkt, pos + 2, size - 2, r.rdata.name, tab);
  }

  lemma ServiceBack(pkt: seq<byte>, pos: nat, size: nat, r: RR, tab: seq<Entry>)
    requires |pkt| <= 0x4000 && TabGood(pkt, tab) && RROk(r) && r.rtype == TYPE_SRV
    requires var o := PrintRData(pos, size, r, tab); o.Output? && At(pkt, pos, o.bytes)
    ensures DataBack(pkt, pos, PrintRData(pos, size, r, tab), r, tab)
  {
    hide ReadName, PrintName, Survives, Note, TabGood, AllSurvive, NoteAll, W16, R16;
    var d := r.rdata;
    FieldsAt(pkt, pos, size, Fixed3(d), d.target, tab);
    OneName(NamesOf(tab), d.target);
    NameBack(pkt, pos + 8, size - 8, d.target, tab);
    AtSplit(pkt, pos + 2, W16(d.prio) + W16(d.weight), W16(d.port));
    AtSplit(pkt, pos + 2, W16(d.prio), W16(d.weight));
    R16At(pkt, pos + 2, d.prio);
    R16At(pkt, pos + 4, d.weight);
    R16At(pkt, pos + 6, d.port);
  }

  lemma AddressBack(pkt: seq<byte>, pos: nat, size: nat, r: RR, tab: seq<Entry>)
    requires |pkt| <= 0x4000 && TabGood(pkt, tab) && RROk(r) && (r.rtype == TYPE_A || r.rtype == TYPE_AAAA)
    requires var o := PrintRData(pos, size, r, tab); o.Output? && At(pkt, pos, o.bytes)
    ensures DataBack(pkt, pos, PrintRData(pos, size, r, tab), r, tab)
  {
    hide TabGood, W16, R16;
    var ip := r.rdata.ip;
    AtSplit(pkt, pos, W16(|ip|), ip);
    R16At(pkt, pos, |ip|);
    AtText(pkt, pos + 2, ip);
  }

  // What o printed for r's data is read back there, with the right length field.
  ghost predicate DataBack(pkt: seq<byte>, pos: nat, o: Output, r: RR, tab: seq<Entry>)
    requires o.Output? && RROk(r)
  {
    && 2 <= |o.bytes| && pos + |o.bytes| <= |pkt| && R16(pkt, pos) == |o.bytes| - 2
    && var d := ParseRData(pkt, pos + 2, r.rtype, |o.bytes| - 2);
    Back(pkt, tab, o, SameData(d, r.rdata), if d.Done? then 2 + d.len else 0, DataNames(r))
  }

  lemma RDataBack(pkt: seq<byte>, pos: nat, size: nat, r: RR, tab: seq<Entry>)
    requires |pkt| <= 0x4000 && TabGood(pkt, tab) && RROk(r)
    requires var o := PrintRData(pos, size, r, tab); o.Output? && At(pkt, pos, o.bytes)
    ensures DataBack(pkt, pos, PrintRData(pos, size, r, tab), r, tab)
  {
    hide DataBack, PrintFields, TabGood;
    if NameType(r.rtype) {
      TargetBack(pkt, pos, size, r, tab);
    } else if r.rtype == TYPE_SRV {
      ServiceBack(pkt, pos, size, r, tab);
    } else {
      AddressBack(pkt, pos, size, r, tab);
    }
  }

  // Equal records but for the rdlength field, which the printer does not use.
  predicate EqualRR(a: RR, b: RR) { a == b.(rdlength := a.rdlength) }

  predicate SameRR(r: Parsed<RR>, rr: RR) { r.Done? && EqualRR(r.value, rr) }

  function RRNames(r: RR): seq<Name>
    requires RROk(r)
  {
    [r.name] + DataNames(r)
  }

  // Where the parts of a printed record stand: n is its name, d its data.
  ghost predicate Parts(pkt: seq<byte>, pos: nat, size: nat, r: RR, tab: seq<Entry>, n: Output, d: Output)
    requires RROk(r)
  {
    && n == PrintName(pos, size, r.name, tab) && n.Output? && At(pkt, pos, n.bytes) && size >= |n.bytes| + 8
    && d == PrintRData(pos + |n.bytes| + 8, size - |n.bytes| - 8, r, n.tab) && d.Output? && At(pkt, pos + |n.bytes| + 8, d.bytes)
    && PrintRR(pos, size, r, tab) == Output(n.bytes + FixedRR(r) + d.bytes, d.tab)
  }

  lemma RRParts(pkt: seq<byte>, pos: nat, size: nat, r: RR, tab: seq<Entry>) returns (n: Output, d: Output)
    requires RROk(r)
    requires var o := PrintRR(pos, size, r, tab); o.Output? && At(pkt, pos, o.bytes)
    ensures Parts(pkt, pos, size, r, tab, n, d) && At(pkt, pos + |n.bytes|, FixedRR(r))
  {
    hide PrintName, PrintRData, FixedRR;
    n := PrintName(pos, size, r.name, tab);
    d := PrintRData(pos + |n.bytes| + 8, size - |n.bytes| - 8, r, n.tab);
    AtSplit(pkt, pos, n.bytes + FixedRR(r), d.bytes);
    AtSplit(pkt, pos, n.bytes, FixedRR(r));
  }

  lemma FixedAt(pkt: seq<byte>, p: nat, r: RR)
    requires RROk(r) && At(pkt, p, FixedRR(r))
    ensures p + 8 <= |pkt| && R16(pkt, p) == r.rtype && R16(pkt, p + 2) == r.rclass && R32(pkt, p + 4) == r.ttl
  {
    hide W16, R16, R32, W32;
    AtSplit(pkt, p, W16(r.rtype) + W16(r.rclass), W32(r.ttl));
    AtSplit(pkt, p, W16(r.rtype), W16(r.rclass));
    R16At(pkt, p, r.rtype);
    R16At(pkt, p + 2, r.rclass);
    R32At(pkt, p + 4, r.ttl);
  }

  lemma RRBack(pkt: seq<byte>, pos: nat, size: nat, r: RR, tab: seq<Entry>)
    requires |pkt| <= 0x4000 && TabGood(pkt, tab) && RROk(r) && r.rclass == 1
    requires var o := PrintRR(pos, size, r, tab); o.Output? && At(pkt, pos, o.bytes)
    ensures var p := ParseRR(pkt, pos);
      Back(pkt, tab, PrintRR(pos, size, r, tab), SameRR(p, r), LenOf(p), RRNames(r))
  {
    hide ReadName, PrintName, PrintRData, ParseRData, PrintRR, Survives, Note, TabGood, AllSurvive, NoteAll, FixedRR, R16, R32;
    var known := NamesOf(tab);
    var n, d := RRParts(pkt, pos, size, r, tab);
    FixedAt(pkt, pos + |n.bytes|, r);
    NameBack(pkt, pos, size, r.name, tab);
    OneName(known, r.name);
    AllSurviveSplit(known, [r.name], DataNames(r));
    if Survives(known, r.name) {
      RDataBack(pkt, pos + |n.bytes| + 8, size - |n.bytes| - 8, r, n.tab);
    }
  }

  // ---------------------------------------------------------------- sections

  function QueryNames(qs: seq<Query>): seq<Name> {
    if qs == [] then [] else [qs[0].name] + QueryNames(qs[1..])
  }

  function RRsNames(rs: seq<RR>): seq<Name>
    requires RRsOk(rs)
  {
    if rs == [] then [] else RRNames(rs[0]) + RRsNames(rs[1..])
  }

  predicate SameQueries(r: Parsed<seq<Query>>, qs: seq<Query>) { r.Done? && r.value == qs }

  predicate EqualRRs(a: seq<RR>, b: seq<RR>) {
    |a| == |b| && forall i :: 0 <= i < |a| ==> EqualRR(a[i], b[i])
  }

  predicate SameRRs(r: Parsed<seq<RR>>, rs: seq<RR>) { r.Done? && EqualRRs(r.value, rs) }

  lemma EqualRRsHead(a: RR, more: seq<RR>, b: seq<RR>)
    requires b != []
    ensures EqualRRs([a] + more, b) <==> EqualRR(a, b[0]) && EqualRRs(more, b[1..])
  {
    hide EqualRR;
    if EqualRRs([a] + more, b) {
      assert ([a] + more)[0] == a;
      forall i | 0 <= i < |more| ensures EqualRR(more[i], b[1..][i]) { assert ([a] + more)[i + 1] == more[i]; }
    }
  }

  // Two printed parts come back when both do.
  lemma BothBack(pkt: seq<byte>, tab: seq<Entry>, o1: Output, same1: bool, len1: nat, names1: seq<Name>,
                 o2: Output, same2: bool, len2: nat, names2: seq<Name>, len: nat)
    requires o1.Output? && o2.Output? && Back(pkt, tab, o1, same1, len1, names1)
    requires same1 ==> Back(pkt, o1.tab, o2, same2, len2, names2)
    requires same1 && same2 ==> len == len1 + len2
    ensures Back(pkt, tab, Output(o1.bytes + o2.bytes, o2.tab), same1 && same2, len, names1 + names2)
  {
    hide AllSurvive, NoteAll, TabGood;
    AllSurviveSplit(NamesOf(tab), names1, names2);
  }

  lemma BackLen(pkt: seq<byte>, tab: seq<Entry>, o: Output, same: bool, len: nat, names: seq<Name>)
    requires o.Output? && same && Back(pkt, tab, o, same, len, names)
    ensures len == |o.bytes| && TabGood(pkt, o.tab)
  {}

  // A question list comes back when its first question and the others do.
  lemma SameQueriesStep(pkt: seq<byte>, pos: nat, qs: seq<Query>, q: Parsed<Query>)
    requires qs != [] && pos <= |pkt| && q == ParseQuery(pkt, pos)
    ensures var r := ParseQueries(pkt, pos, |qs|);
      if q.Fail? then !SameQueries(r, qs)
      else
        var tail := ParseQueries(pkt, pos + q.len, |qs| - 1);
        && (SameQueries(r, qs) <==> SameQuery(q, qs[0]) && SameQueries(tail, qs[1..]))
        && (SameQueries(r, qs) ==> r.len == q.len + tail.len)
  {
    hide ParseQuery;
    if q.Done? {
      var tail := ParseQueries(pkt, pos + q.len, |qs| - 1);
      if tail.Done? {
        assert qs == [qs[0]] + qs[1..];
        assert ([q.value] + tail.value)[0] == q.value && ([q.value] + tail.value)[1..] == tail.value;
      }
    }
  }

  // One step of printing the questions.
  ghost predicate Asking(pkt: seq<byte>, pos: nat, size: nat, qs: seq<Query>, tab: seq<Entry>, o1: Output, o2: Output)
    requires QueriesOk(qs)
  {
    && qs != [] && QueryOk(qs[0]) && QueriesOk(qs[1..]) && o1 == PrintQuery(pos, size, qs[0], tab) && o1.Output?
    && o2 == PrintQueries(pos + |o1.bytes|, size - (|o1.bytes| - 4), qs[1..], o1.tab) && o2.Output?
    && At(pkt, pos, o1.bytes) && At(pkt, pos + |o1.bytes|, o2.bytes)
    && PrintQueries(pos, size, qs, tab) == Output(o1.bytes + o2.bytes, o2.tab)
  }

  lemma QueriesAt(pkt: seq<byte>, pos: nat, size: nat, qs: seq<Query>, tab: seq<Entry>) returns (o1: Output, o2: Output)
    requires qs != [] && QueriesOk(qs)
    requires var o := PrintQueries(pos, size, qs, tab); o.Output? && At(pkt, pos, o.bytes)
    ensures Asking(pkt, pos, size, qs, tab, o1, o2) && pos + |o1.bytes| <= |pkt|
  {
    hide PrintQuery, At, QueryOk;
    o1 := PrintQuery(pos, size, qs[0], tab);
    o2 := PrintQueries(pos + |o1.bytes|, size - (|o1.bytes| - 4), qs[1..], o1.tab);
    AtSplit(pkt, pos, o1.bytes, o2.bytes);
    AtEnds(pkt, pos, o1.bytes);
  }

  lemma {:induction false} QueriesBack(pkt: seq<byte>, pos: nat, size: nat, qs: seq<Query>, tab: seq<Entry>)
    requires |pkt| <= 0x4000 && pos <= |pkt| && TabGood(pkt, tab) && QueriesOk(qs)
    requires var o := PrintQueries(pos, size, qs, tab); o.Output? && At(pkt, pos, o.bytes)
    ensures var r := ParseQueries(pkt, pos, |qs|);
      Back(pkt, tab, PrintQueries(pos, size, qs, tab), SameQueries(r, qs), LenOf(r), QueryNames(qs))
    decreases |qs|
  {
    hide At, ParseQuery, PrintQuery, PrintQueries, TabGood, AllSurvive, NoteAll, QueryOk, QueriesOk, ParseQueries, Back, QueryNames;
    if qs == [] {
      NoQueriesBack(pkt, pos, size, tab);
    } else {
      QueryNamesStep(qs);
      var o1, o2 := QueriesAt(pkt, pos, size, qs, tab);
      var p, r, at := ParseQuery(pkt, pos), ParseQueries(pkt, pos, |qs|), pos + |o1.bytes|;
      var tail := ParseQueries(pkt, at, |qs| - 1);
      QueryBack(pkt, pos, size, qs[0], tab);
      SameQueriesStep(pkt, pos, qs, p);
      var same1, same2 := SameQuery(p, qs[0]), SameQueries(tail, qs[1..]);
      if same1 {
        BackLen(pkt, tab, o1, same1, LenOf(p), [qs[0].name]);
        QueriesBack(pkt, at, size - (|o1.bytes| - 4), qs[1..], o1.tab);
      }
      BothBack(pkt, tab, o1, same1, LenOf(p), [qs[0].name], o2, same2, LenOf(tail), QueryNames(qs[1..]), LenOf(r));
    }
  }

  lemma QueryNamesStep(qs: seq<Query>)
    requires qs != []
    ensures QueryNames(qs) == [qs[0].name] + QueryNames(qs[1..])
  {}

  lemma NoQueriesBack(pkt: seq<byte>, pos: nat, size: nat, tab: seq<Entry>)
    requires pos <= |pkt| && TabGood(pkt, tab)
    ensures var r := ParseQueries(pkt, pos, 0);
      PrintQueries(pos, size, [], tab) == Output([], tab) && Back(pkt, tab, Output([], tab), SameQueries(r, []), LenOf(r), QueryNames([]))
  {
    NothingBack(pkt, tab);
  }

  lemma NothingBack(pkt: seq<byte>, tab: seq<Entry>)
    requires TabGood(pkt, tab)
    ensures Back(pkt, tab, Output([], tab), true, 0, [])
  {}

  lemma SameRRsStep(pkt: seq<byte>, pos: nat, rs: seq<RR>, p: Parsed<RR>)
    requires rs != [] && pos <= |pkt| && p == ParseRR(pkt, pos)
    ensures var r := ParseRRs(pkt, pos, |rs|);
      if p.Fail? then !SameRRs(r, rs)
      else
        var tail := ParseRRs(pkt, pos + p.len, |rs| - 1);
        && (SameRRs(r, rs) <==> SameRR(p, rs[0]) && SameRRs(tail, rs[1..]))
        && (SameRRs(r, rs) ==> r.len == p.len + tail.len)
  {
    hide ParseRR, EqualRRs, EqualRR;
    if p.Done? {
      var tail := ParseRRs(pkt, pos + p.len, |rs| - 1);
      if tail.Done? { EqualRRsHead(p.value, tail.value, rs); }
    }
  }

  // One step of printing a section.
  ghost predicate Printing(pkt: seq<byte>, pos: nat, size: nat, rs: seq<RR>, tab: seq<Entry>, o1: Output, o2: Output)
    requires RRsOk(rs)
  {
    && rs != [] && RROk(rs[0]) && RRsOk(rs[1..]) && o1 == PrintRR(pos, size, rs[0], tab) && o1.Output?
    && o2 == PrintRRs(pos + |o1.bytes|, size - |o1.bytes|, rs[1..], o1.tab) && o2.Output?
    && At(pkt, pos, o1.bytes) && At(pkt, pos + |o1.bytes|, o2.bytes)
    && PrintRRs(pos, size, rs, tab) == Output(o1.bytes + o2.bytes, o2.tab)
  }

  lemma RRsAt(pkt: seq<byte>, pos: nat, size: nat, rs: seq<RR>, tab: seq<Entry>) returns (o1: Output, o2: Output)
    requires rs != [] && RRsOk(rs)
    requires var o := PrintRRs(pos, size, rs, tab); o.Output? && At(pkt, pos, o.bytes)
    ensures Printing(pkt, pos, size, rs, tab, o1, o2) && pos + |o1.bytes| <= |pkt|
  {
    hide PrintRR, At, RROk;
    o1 := PrintRR(pos, size, rs[0], tab);
    o2 := PrintRRs(pos + |o1.bytes|, size - |o1.bytes|, rs[1..], o1.tab);
    AtSplit(pkt, pos, o1.bytes, o2.bytes);
    AtEnds(pkt, pos, o1.bytes);
  }

  lemma RRsNamesStep(rs: seq<RR>)
    requires rs != [] && RRsOk(rs)
    ensures RROk(rs[0]) && RRsOk(rs[1..]) && RRsNames(rs) == RRNames(rs[0]) + RRsNames(rs[1..])
  {}

  lemma NoRRsBack(pkt: seq<byte>, pos: nat, size: nat, tab: seq<Entry>)
    requires pos <= |pkt| && TabGood(pkt, tab)
    ensures var r := ParseRRs(pkt, pos, 0);
      PrintRRs(pos, size, [], tab) == Output([], tab) && Back(pkt, tab, Output([], tab), SameRRs(r, []), LenOf(r), RRsNames([]))
  {
    NothingBack(pkt, tab);
  }

  lemma {:induction false} RRsBack(pkt: seq<byte>, pos: nat, size: nat, rs: seq<RR>, tab: seq<Entry>)
    requires |pkt| <= 0x4000 && pos <= |pkt| && TabGood(pkt, tab) && RRsOk(rs) && InClass(rs)
    requires var o := PrintRRs(pos, size, rs, tab); o.Output? && At(pkt, pos, o.bytes)
    ensures var r := ParseRRs(pkt, pos, |rs|);
      Back(pkt, tab, PrintRRs(pos, size, rs, tab), SameRRs(r, rs), LenOf(r), RRsNames(rs))
    decreases |rs|
  {
    hide At, ParseRR, PrintRR, PrintRRs, TabGood, AllSurvive, NoteAll, RROk, RRsOk, RRNames, RRsNames, ParseRRs, EqualRRs, EqualRR, Back;
    if rs == [] {
      NoRRsBack(pkt, pos, size, tab);
    } else {
      RRsNamesStep(rs);
      var o1, o2 := RRsAt(pkt, pos, size, rs, tab);
      var p, r, at := ParseRR(pkt, pos), ParseRRs(pkt, pos, |rs|), pos + |o1.bytes|;
      var tail := ParseRRs(pkt, at, |rs| - 1);
      RRBack(pkt, pos, size, rs[0], tab);
      SameRRsStep(pkt, pos, rs, p);
      var same1, same2 := SameRR(p, rs[0]), SameRRs(tail, rs[1..]);
      if same1 {
        BackLen(pkt, tab, o1, same1, LenOf(p), RRNames(rs[0]));
        RRsBack(pkt, at, size - |o1.bytes|, rs[1..], o1.tab);
      }
      BothBack(pkt, tab, o1, same1, LenOf(p), RRNames(rs[0]), o2, same2, LenOf(tail), RRsNames(rs[1..]), LenOf(r));
    }
  }

  predicate InClass(rs: seq<RR>) { forall i :: 0 <= i < |rs| ==> rs[i].rclass == 1 }

  // ---------------------------------------------------------------- packets

  type Sections = (seq<RR>, seq<RR>, seq<RR>)

  predicate SameRecords(r: Parsed<Sections>, p: Packet) {
    r.Done? && EqualRRs(r.value.0, p.ans) && EqualRRs(r.value.1, p.ns) && EqualRRs(r.value.2, p.arr)
  }

  function RecordNames(p: Packet): seq<Name>
    requires PacketOk(p)
  {
    RRsNames(p.ans) + RRsNames(p.ns) + RRsNames(p.arr)
  }

  predicate AllInClass(p: Packet) { InClass(p.ans) && InClass(p.ns) && InClass(p.arr) }

  ghost predicate SectionsAt(pkt: seq<byte>, pos: nat, size: nat, p: Packet, tab: seq<Entry>, a: Output, n: Output, x: Output)
    requires PacketOk(p)
  {
    && a == PrintRRs(pos, size, p.ans, tab) && a.Output? && At(pkt, pos, a.bytes)
    && n == PrintRRs(pos + |a.bytes|, size - |a.bytes|, p.ns, a.tab) && n.Output? && At(pkt, pos + |a.bytes|, n.bytes)
    && x == PrintRRs(pos + |a.bytes| + |n.bytes|, size - |a.bytes| - |n.bytes|, p.arr, n.tab) && x.Output?
    && At(pkt, pos + |a.bytes| + |n.bytes|, x.bytes)
    && PrintRecords(pos, size, p, tab) == Output(a.bytes + n.bytes + x.bytes, x.tab)
  }

  lemma RecordsAt(pkt: seq<byte>, pos: nat, size: nat, p: Packet, tab: seq<Entry>) returns (a: Output, n: Output, x: Output)
    requires PacketOk(p)
    requires var o := PrintRecords(pos, size, p, tab); o.Output? && At(pkt, pos, o.bytes)
    ensures SectionsAt(pkt, pos, size, p, tab, a, n, x)
    ensures pos + |a.bytes| <= |pkt| && pos + |a.bytes| + |n.bytes| <= |pkt|
  {
    hide PrintRRs, At, RRsOk, QueriesOk;
    a := PrintRRs(pos, size, p.ans, tab);
    n := PrintRRs(pos + |a.bytes|, size - |a.bytes|, p.ns, a.tab);
    x := PrintRRs(pos + |a.bytes| + |n.bytes|, size - |a.bytes| - |n.bytes|, p.arr, n.tab);
    AtSplit(pkt, pos, a.bytes + n.bytes, x.bytes);
    AtSplit(pkt, pos, a.bytes, n.bytes);
    AtEnds(pkt, pos, a.bytes);
    AtEnds(pkt, pos, a.bytes + n.bytes);
  }

  lemma RecordsBack(pkt: seq<byte>, pos: nat, size: nat, p: Packet, tab: seq<Entry>)
    requires |pkt| <= 0x4000 && pos <= |pkt| && TabGood(pkt, tab) && PacketOk(p) && AllInClass(p)
    requires var o := PrintRecords(pos, size, p, tab); o.Output? && At(pkt, pos, o.bytes)
    ensures var r := ParseRecords(pkt, pos, |p.ans|, |p.ns|, |p.arr|);
      Back(pkt, tab, PrintRecords(pos, size, p, tab), SameRecords(r, p), LenOf(r), RecordNames(p))
  {
    hide At, PrintRRs, PrintRecords, TabGood, AllSurvive, NoteAll, RRsOk, QueriesOk, InClass, RRsNames, ParseRRs, EqualRRs, Back;
    var a, n, x := RecordsAt(pkt, pos, size, p, tab);
    var p1, p2 := pos + |a.bytes|, pos + |a.bytes| + |n.bytes|;
    var pa, pn, px := ParseRRs(pkt, pos, |p.ans|), ParseRRs(pkt, p1, |p.ns|), ParseRRs(pkt, p2, |p.arr|);
    var sa, sn, sx := SameRRs(pa, p.ans), SameRRs(pn, p.ns), SameRRs(px, p.arr);
    RRsBack(pkt, pos, size, p.ans, tab);
    if sa {
      BackLen(pkt, tab, a, sa, LenOf(pa), RRsNames(p.ans));
      RRsBack(pkt, p1, size - |a.bytes|, p.ns, a.tab);
      if sn {
        BackLen(pkt, a.tab, n, sn, LenOf(pn), RRsNames(p.ns));
        RRsBack(pkt, p2, size - |a.bytes| - |n.bytes|, p.arr, n.tab);
      }
    }
    var an := Output(a.bytes + n.bytes, n.tab);
    BothBack(pkt, tab, a, sa, LenOf(pa), RRsNames(p.ans), n, sn, LenOf(pn), RRsNames(p.ns), LenOf(pa) + LenOf(pn));
    var r := ParseRecords(pkt, pos, |p.ans|, |p.ns|, |p.arr|);
    BothBack(pkt, tab, an, sa && sn, LenOf(pa) + LenOf(pn), RRsNames(p.ans) + RRsNames(p.ns), x, sx, LenOf(px), RRsNames(p.arr), LenOf(r));
  }

  predicate EqualPacket(a: Packet, b: Packet) {
    a.id == b.id && a.flags == b.flags && a.q == b.q && EqualRRs(a.ans, b.ans) && EqualRRs(a.ns, b.ns) && EqualRRs(a.arr, b.arr)
  }

  // The parse succeeds, uses all the bytes and gives p back, up to the rdlength fields.
  predicate ComesBack(pkt: seq<byte>, p: Packet) {
    var r := ParsePacket(pkt);
    r.Done? && EqualPacket(r.value, p) && r.len == |pkt|
  }

  // Every name of a packet in the order in which it is printed.
  function PacketNames(p: Packet): seq<Name>
    requires PacketOk(p)
  {
    QueryNames(p.q) + RecordNames(p)
  }

  lemma HeaderAt(pkt: seq<byte>, p: Packet)
    requires PacketOk(p) && At(pkt, 0, Header(p))
    ensures |pkt| >= HEADER && R16(pkt, 0) == p.id && R16(pkt, 2) == p.flags
    ensures R16(pkt, 4) == |p.q| && R16(pkt, 6) == |p.ans| && R16(pkt, 8) == |p.ns| && R16(pkt, 10) == |p.arr|
  {
    hide W16, R16, QueriesOk, RRsOk;
    var h := W16(p.id) + W16(p.flags) + W16(|p.q|) + W16(|p.ans|) + W16(|p.ns|);
    AtSplit(pkt, 0, h, W16(|p.arr|));
    AtSplit(pkt, 0, W16(p.id) + W16(p.flags) + W16(|p.q|) + W16(|p.ans|), W16(|p.ns|));
    AtSplit(pkt, 0, W16(p.id) + W16(p.flags) + W16(|p.q|), W16(|p.ans|));
    AtSplit(pkt, 0, W16(p.id) + W16(p.flags), W16(|p.q|));
    AtSplit(pkt, 0, W16(p.id), W16(p.flags));
    R16At(pkt, 0, p.id);
    R16At(pkt, 2, p.flags);
    R16At(pkt, 4, |p.q|);
    R16At(pkt, 6, |p.ans|);
    R16At(pkt, 8, |p.ns|);
    R16At(pkt, 10, |p.arr|);
  }

  ghost predicate PacketAt(pkt: seq<byte>, p: Packet, size: nat, q: Output, rs: Output)
    requires PacketOk(p)
  {
    && size >= HEADER && At(pkt, 0, Header(p)) && q == PrintQueries(HEADER, size - HEADER, p.q, []) && q.Output? && At(pkt, HEADER, q.bytes)
    && rs == PrintRecords(HEADER + |q.bytes|, size - HEADER - (|q.bytes| - 4 * |p.q|), p, q.tab) && rs.Output?
    && At(pkt, HEADER + |q.bytes|, rs.bytes) && |pkt| == HEADER + |q.bytes| + |rs.bytes|
  }

  lemma PacketParts(p: Packet, size: nat) returns (q: Output, rs: Output)
    requires PacketOk(p) && PrintPacket(p, size).Output?
    ensures PacketAt(PrintPacket(p, size).bytes, p, size, q, rs)
  {
    hide PrintQueries, PrintRecords, At, Header, RRsOk, QueriesOk;
    q := PrintQueries(HEADER, size - HEADER, p.q, []);
    rs := PrintRecords(HEADER + |q.bytes|, size - HEADER - (|q.bytes| - 4 * |p.q|), p, q.tab);
    var pkt := PrintPacket(p, size).bytes;
    AtSelf(pkt);
    AtSplit(pkt, 0, Header(p) + q.bytes, rs.bytes);
    AtSplit(pkt, 0, Header(p), q.bytes);
  }

  // A printed packet of at most 16384 bytes comes back exactly when each section has at most 256 items
  // and every name survives.
  lemma RoundTrip(p: Packet, size: nat)
    requires PacketOk(p) && AllInClass(p)
    requires PrintPacket(p, size).Output? && |PrintPacket(p, size).bytes| <= 0x4000
    ensures ComesBack(PrintPacket(p, size).bytes, p) <==>
      |p.q| <= MAX_SECTION && |p.ans| <= MAX_SECTION && |p.ns| <= MAX_SECTION && |p.arr| <= MAX_SECTION &&
      AllSurvive([], PacketNames(p))
  {
    hide At, PrintPacket, PrintQueries, PrintRecords, TabGood, AllSurvive, NoteAll, RRsOk, QueriesOk, InClass, QueryNames, RecordNames,
         ParseQueries, ParseRecords, EqualRRs, R16, Header;
    var q, rs := PacketParts(p, size);
    var pkt := PrintPacket(p, size).bytes;
    HeaderAt(pkt, p);
    assert TabGood(pkt, []) by { NoTab(pkt); }
    var pq := ParseQueries(pkt, HEADER, |p.q|);
    QueriesBack(pkt, HEADER, size - HEADER, p.q, []);
    AllSurviveSplit([], QueryNames(p.q), RecordNames(p));
    if SameQueries(pq, p.q) {
      RecordsBack(pkt, HEADER + |q.bytes|, size - HEADER - (|q.bytes| - 4 * |p.q|), p, q.tab);
    }
  }

  lemma NoTab(pkt: seq<byte>)
    ensures TabGood(pkt, []) && NamesOf([]) == []
  {}

  // ---------------------------------------------------------------- host names always come back

  predicate HostChar(c: byte) { 97 <= c <= 122 || 65 <= c <= 90 || 48 <= c <= 57 || c == 45 || c == 95 }

  predicate HostChars(s: seq<byte>) { forall i :: 0 <= i < |s| ==> HostChar(s[i]) }

  // The root, or labels of 1 to 44 letters, digits, hyphens and underscores.
  predicate HostName(n: Name)
    decreases |n|
  {
    n == [] ||
    (1 <= FirstDot(n) <= 44 && HostChars(n[..FirstDot(n)]) &&
     (FirstDot(n) == |n| || (AfterDot(n) != [] && HostName(AfterDot(n)))))
  }

  lemma {:induction false} HostWellFormed(n: Name)
    requires HostName(n)
    ensures WellFormed(n)
    decreases |n|
  {
    if n != [] && FirstDot(n) < |n| { HostWellFormed(AfterDot(n)); }
  }

  lemma {:induction false} HostBytes(n: Name, i: nat)
    requires HostName(n) && i < |n|
    ensures n[i] >= 45
    decreases |n|
  {
    var k := FirstDot(n);
    if i < k {
      assert n[..k][i] == n[i];
    } else if i > k {
      HostBytes(AfterDot(n), i - k - 1);
    }
  }

  // The table text of a single label is the label.
  lemma TabTextOfLabel(n: Name)
    requires FirstDot(n) == |n|
    ensures TabText(n) == n
  {
    if n != [] {
      FullSplit(n);
      hide Full;
      assert n[..|n|] == n;
      Middle(ToByte(|n|), n, Full(AfterDot(n)));
    }
  }

  lemma Middle(a: byte, n: seq<byte>, t: seq<byte>)
    ensures ([a] + (n + t))[1..1 + |n|] == n
  {}

  // After the first of several labels it has the length of the second.
  lemma TabTextLength(n: Name)
    requires FirstDot(n) < |n| && AfterDot(n) != []
    ensures TabText(n)[FirstDot(n)] == ToByte(FirstDot(AfterDot(n)))
  {
    var k, rest := FirstDot(n), AfterDot(n);
    FullSplit(n);
    FullSplit(rest);
    assert Full(n)[1 + k] == Full(rest)[0] == ToByte(FirstDot(rest));
    assert TabText(n)[k] == Full(n)[1 + k] by { TabTextIndex(n, k); }
  }

  lemma TabTextIndex(n: Name, i: nat)
    requires i < |n|
    ensures 1 + i < |Full(n)| && TabText(n)[i] == Full(n)[1 + i]
  {
    WireSize(n);
  }

  // So among host names only equal names match.
  lemma HostMatch(m: Name, n: Name)
    requires HostName(m) && HostName(n) && TabText(m) == n
    ensures m == n
  {
    hide TabText;
    if FirstDot(m) == |m| {
      TabTextOfLabel(m);
    } else {
      TabTextLength(m);
      HostBytes(n, FirstDot(m));
    }
  }

  predicate HostNames(ns: seq<Name>) { forall i :: 0 <= i < |ns| ==> HostName(ns[i]) }

  lemma {:induction false} HostNamesSurvive(known: seq<Name>, names: seq<Name>)
    requires HostNames(known) && HostNames(names)
    ensures AllSurvive(known, names)
    decreases |names|
  {
    if names != [] {
      hide HostName, WellFormed;
      var n, i := names[0], Find(known, 0, names[0]);
      HostWellFormed(n);
      if i < |known| { HostMatch(known[i], n); }
      assert Survives(known, n);
      HostNamesSurvive(Note(known, n), names[1..]);
    }
  }

  // A packet of host names comes back, whatever names are compressed.
  lemma HostPacketComesBack(p: Packet, size: nat)
    requires PacketOk(p) && AllInClass(p) && HostNames(PacketNames(p))
    requires |p.q| <= MAX_SECTION && |p.ans| <= MAX_SECTION && |p.ns| <= MAX_SECTION && |p.arr| <= MAX_SECTION
    requires PrintPacket(p, size).Output? && |PrintPacket(p, size).bytes| <= 0x4000
    ensures ComesBack(PrintPacket(p, size).bytes, p)
  {
    hide ComesBack, PrintPacket, HostName, AllSurvive;
    RoundTrip(p, size);
    HostNamesSurvive([], PacketNames(p));
  }

  function Xs(k: nat): Name { seq(k, _ => 120) }

  // The bound is sharp: in "a." and 45 times "x" the second length byte is a hyphen, so the later name
  // "a-" and 45 times "x" is printed as a pointer to it, although both names are well formed.
  lemma LongLabelsCollide()
    ensures var m: Name, n: Name := [97, DOT] + Xs(45), [97, 45] + Xs(45);
      WellFormed(m) && WellFormed(n) && !AllSurvive([], [m, n])
  {
    var m: Name, n: Name := [97, DOT] + Xs(45), [97, 45] + Xs(45);
    assert m[..1] == [97];
    FirstDotIs(m, 1);
    assert AfterDot(m) == Xs(45);
    FirstDotIs(Xs(45), 45);
    FirstDotIs(n, 47);
    CollidingText(m);
    assert [m, n][1..] == [n];
    assert Find([], 0, m) == 0 && Note([], m) == [m];
    assert Find([m], 0, n) == 0;
    assert !Survives([m], n);
  }

  lemma CollidingText(m: Name)
    requires m == [97, DOT] + Xs(45) && FirstDot(m) == 1 && AfterDot(m) == Xs(45) && FirstDot(Xs(45)) == 45
    ensures TabText(m) == [97, 45] + Xs(45)
  {
    FullSplit(m);
    FullSplit(Xs(45));
    hide Full, FirstDot, AfterDot, Xs;
    assert m[..1] == [97] && Xs(45)[..45] == Xs(45);
    assert Full(m) == [1] + ([97] + ([45] + (Xs(45) + Full([]))));
    assert Full(m)[1..48] == [97, 45] + Xs(45);
  }

  // So a packet that asks for both names does not come back.
  function CollidingPacket(): (p: Packet)
    ensures PacketOk(p) && AllInClass(p)
  {
    Packet(1, 0, [Query([97, DOT] + Xs(45), TYPE_A, 1), Query([97, 45] + Xs(45), TYPE_A, 1)], [], [], [])
  }

  // A question prints when there is room for its name in full.
  lemma QueryFits(pos: nat, size: nat, q: Query, tab: seq<Entry>)
    requires QueryOk(q) && size >= |q.name| + 6
    ensures var o := PrintQuery(pos, size, q, tab); o.Output? && |o.bytes| <= |q.name| + 6
  {
    hide Wire, Find, TabText;
    WireSize(q.name);
  }

  lemma CollidingPacketPrints()
    ensures var o := PrintPacket(CollidingPacket(), 512); o.Output? && |o.bytes| <= 0x4000
  {
    hide PrintQuery;
    var p := CollidingPacket();
    assert p.q[1..] == [p.q[1]] && p.q[1..][1..] == [];
    QueryFits(HEADER, 500, p.q[0], []);
    var o := PrintQuery(HEADER, 500, p.q[0], []);
    QueryFits(HEADER + |o.bytes|, 500 - (|o.bytes| - 4), p.q[1], o.tab);
    assert PrintQueries(HEADER + |o.bytes|, 500 - (|o.bytes| - 4), p.q[1..], o.tab).Output?;
  }

  lemma CollidingPacketIsLost()
    ensures PrintPacket(CollidingPacket(), 512).Output? && !ComesBack(PrintPacket(CollidingPacket(), 512).bytes, CollidingPacket())
  {
    CollidingPacketPrints();
    var p := CollidingPacket();
    RoundTrip(p, 512);
    LongLabelsCollide();
    assert p.q[1..] == [p.q[1]] && p.q[1..][1..] == [];
    hide PrintPacket, ComesBack, AllSurvive, WellFormed;
    assert QueryNames(p.q[1..]) == [p.q[1].name];
    assert QueryNames(p.q) == [p.q[0].name, p.q[1].name];
    assert PacketNames(p) == [p.q[0].name, p.q[1].name];
  }
}
