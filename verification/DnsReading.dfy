/** What the parser reads from any bytes, stated as a grammar of names, records and packets (sections 3.2,
    4.1.1 to 4.1.4 of RFC 1035) rather than through what the printer prints. */
module DnsReading {
  import opened Bytes
  import opened DnsTypes
  import opened DnsName
  import opened DnsParser
  import opened DnsPrinter
  import opened DnsRoundTrip

  // ---------------------------------------------------------------- names

  // How a name is spelled on the wire.
  datatype Spelling = Root | Pointer(offset: nat, there: Spelling) | Then(lab: Name, rest: Spelling)

  ghost predicate Spelled(pkt: seq<byte>, pos: nat, w: Spelling)
    decreases w
  {
    match w
    case Root => At(pkt, pos, [0])
    case Pointer(offset, there) => offset < 0x4000 && At(pkt, pos, [0xC0 + offset / 256, offset % 256]) && Spelled(pkt, offset, there)
    case Then(lab, rest) => 1 <= |lab| < 0xC0 && At(pkt, pos, [|lab|]) && At(pkt, pos + 1, lab) && Spelled(pkt, pos + 1 + |lab|, rest)
  }

  function Pointers(w: Spelling): nat {
    match w
    case Root => 0
    case Pointer(_, there) => 1 + Pointers(there)
    case Then(_, rest) => Pointers(rest)
  }

  // Labels are separated by dots; a pointer to the root leaves a dot behind.
  function NameOf(w: Spelling): Name {
    match w
    case Root => []
    case Pointer(_, there) => NameOf(there)
    case Then(lab, rest) => lab + (if rest == Root then [] else [DOT]) + NameOf(rest)
  }

  function SizeOf(w: Spelling): nat {
    match w
    case Root => 1
    case Pointer(_, _) => 2
    case Then(lab, rest) => 1 + |lab| + SizeOf(rest)
  }

  // The name n is spelled at pos in k bytes, with at most five pointers.
  ghost predicate NameAt(pkt: seq<byte>, pos: nat, n: Name, k: nat) {
    exists w :: Spelled(pkt, pos, w) && Pointers(w) <= 5 && NameOf(w) == n && SizeOf(w) == k
  }

  lemma SpelledFits(pkt: seq<byte>, pos: nat, w: Spelling)
    requires Spelled(pkt, pos, w)
    ensures pos < |pkt| && (pkt[pos] == 0 <==> w == Root)
  {
    match w
    case Root => assert [0][0] == 0;
    case Pointer(offset, _) => assert [0xC0 + offset / 256, offset % 256][0] == 0xC0 + offset / 256;
    case Then(lab, _) => assert [|lab|][0] == |lab|;
  }

  lemma PointerReads(pkt: seq<byte>, pos: nat, offset: nat)
    requires offset < 0x4000 && At(pkt, pos, [0xC0 + offset / 256, offset % 256])
    ensures pos + 1 < |pkt| && pkt[pos] >= 0xC0 && Offset(pkt[pos], pkt[pos + 1]) == offset
  {
    var b := [0xC0 + offset / 256, offset % 256];
    assert b[0] == pkt[pos] && b[1] == pkt[pos + 1];
  }

  lemma LabelReads(pkt: seq<byte>, pos: nat, lab: Name, rest: Spelling)
    requires 1 <= |lab| < 0xC0 && At(pkt, pos, [|lab|]) && At(pkt, pos + 1, lab) && Spelled(pkt, pos + 1 + |lab|, rest)
    ensures pos < |pkt| && pkt[pos] == |lab| && pos + 1 + |lab| < |pkt|
    ensures Label(pkt, pos) == lab + if rest == Root then [] else [DOT]
  {
    assert [|lab|][0] == |lab|;
    SpelledFits(pkt, pos + 1 + |lab|, rest);
    AtText(pkt, pos + 1, lab);
  }

  lemma {:induction false} SpelledReads(pkt: seq<byte>, pos: nat, depth: nat, w: Spelling)
    requires Spelled(pkt, pos, w) && depth <= MAX_RECURSION
    ensures pos < |pkt|
    ensures ReadLabels(pkt, pos, depth) == if depth + Pointers(w) <= 5 then GoodName(NameOf(w), SizeOf(w)) else BadName
    decreases w
  {
    SpelledFits(pkt, pos, w);
    match w
    case Root =>
    case Pointer(offset, there) =>
      PointerReads(pkt, pos, offset);
      SpelledFits(pkt, offset, there);
      if depth < MAX_RECURSION { SpelledReads(pkt, offset, depth + 1, there); }
    case Then(lab, rest) =>
      LabelReads(pkt, pos, lab, rest);
      SpelledReads(pkt, pos + 1 + |lab|, depth, rest);
  }

  lemma {:induction false} ReadIsSpelled(pkt: seq<byte>, pos: nat, depth: nat) returns (w: Spelling)
    requires pos < |pkt| && depth <= MAX_RECURSION && ReadLabels(pkt, pos, depth).GoodName?
    ensures Spelled(pkt, pos, w)
    decreases MAX_RECURSION + 1 - depth, |pkt| - pos
  {
    if pkt[pos] == 0 {
      w := Root;
    } else if pkt[pos] >= 0xC0 {
      var offset := Offset(pkt[pos], pkt[pos + 1]);
      var there := ReadIsSpelled(pkt, offset, depth + 1);
      w := Pointer(offset, there);
      hide ReadLabels;
      SpellPointer(pkt, pos, there);
    } else {
      var len := pkt[pos];
      var rest := ReadIsSpelled(pkt, pos + 1 + len, depth);
      w := Then(pkt[pos + 1..pos + 1 + len], rest);
      hide ReadLabels;
      SpellLabel(pkt, pos, rest);
    }
  }

  lemma SpellPointer(pkt: seq<byte>, pos: nat, there: Spelling)
    requires pos + 1 < |pkt| && pkt[pos] >= 0xC0 && Spelled(pkt, Offset(pkt[pos], pkt[pos + 1]), there)
    ensures Spelled(pkt, pos, Pointer(Offset(pkt[pos], pkt[pos + 1]), there))
  {
    var o := Offset(pkt[pos], pkt[pos + 1]);
    assert 0xC0 + o / 256 == pkt[pos] && o % 256 == pkt[pos + 1];
  }

  lemma SpellLabel(pkt: seq<byte>, pos: nat, rest: Spelling)
    requires pos < |pkt| && 1 <= pkt[pos] < 0xC0 && pos + 1 + pkt[pos] < |pkt| && Spelled(pkt, pos + 1 + pkt[pos], rest)
    ensures Spelled(pkt, pos, Then(pkt[pos + 1..pos + 1 + pkt[pos]], rest))
  {
    var lab := pkt[pos + 1..pos + 1 + pkt[pos]];
    assert |lab| == pkt[pos] && At(pkt, pos, [|lab|]) && At(pkt, pos + 1, lab);
  }

  // The reader reads exactly the names that are spelled with at most five pointers.
  lemma ReadNameExactly(pkt: seq<byte>, pos: nat, n: Name, k: nat)
    ensures ReadName(pkt, pos, 0) == GoodName(n, k) <==> NameAt(pkt, pos, n, k)
  {
    hide ReadLabels;
    if ReadName(pkt, pos, 0) == GoodName(n, k) {
      var w := ReadIsSpelled(pkt, pos, 0);
      SpelledReads(pkt, pos, 0, w);
    }
    if w :| Spelled(pkt, pos, w) && Pointers(w) <= 5 && NameOf(w) == n && SizeOf(w) == k {
      SpelledReads(pkt, pos, 0, w);
    }
  }

  // A name spelled with more pointers is refused.
  lemma TooManyPointers(pkt: seq<byte>, pos: nat, w: Spelling)
    requires Spelled(pkt, pos, w) && Pointers(w) > 5
    ensures ReadName(pkt, pos, 0).BadName?
  {
    SpelledReads(pkt, pos, 0, w);
  }

  // ---------------------------------------------------------------- fields

  lemma R16Exactly(pkt: seq<byte>, p: nat, v: nat)
    requires p + 2 <= |pkt|
    ensures R16(pkt, p) == v <==> v < 0x10000 && At(pkt, p, W16(v))
  {
    var r := R16(pkt, p);
    assert r < 0x10000 && r / 256 == pkt[p] && r % 256 == pkt[p + 1];
    assert At(pkt, p, W16(r));
    if v < 0x10000 && At(pkt, p, W16(v)) { R16At(pkt, p, v); }
  }

  lemma R32Exactly(pkt: seq<byte>, p: nat, v: nat)
    requires p + 4 <= |pkt|
    ensures R32(pkt, p) == v <==> v < 0x1_0000_0000 && At(pkt, p, W32(v))
  {
    hide W16, R16;
    var hi, lo := R16(pkt, p), R16(pkt, p + 2);
    R16Exactly(pkt, p, hi);
    R16Exactly(pkt, p + 2, lo);
    var r := R32(pkt, p);
    assert r / 65536 == hi && r % 65536 == lo;
    AtJoin(pkt, p, W16(hi), W16(lo));
    if v < 0x1_0000_0000 && At(pkt, p, W32(v)) { R32At(pkt, p, v); }
  }

  // Numbers stand with the most significant byte first.
  lemma NetworkOrder(v: nat, w: nat)
    requires v < 0x10000 && w < 0x1_0000_0000
    ensures W16(v)[0] as int * 256 + W16(v)[1] == v
    ensures ((W32(w)[0] as int * 256 + W32(w)[1]) * 256 + W32(w)[2]) * 256 + W32(w)[3] == w
  {}

  // ---------------------------------------------------------------- questions and records

  ghost predicate QuestionAt(pkt: seq<byte>, pos: nat, q: Query, len: nat) {
    && len >= 4 && NameAt(pkt, pos, q.name, len - 4)
    && q.qtype < 0x10000 && q.qclass < 0x10000 && At(pkt, pos + len - 4, W16(q.qtype)) && At(pkt, pos + len - 2, W16(q.qclass))
  }

  lemma QuestionExactly(pkt: seq<byte>, pos: nat, q: Query, len: nat)
    ensures ParseQuery(pkt, pos) == Done(q, len) <==> QuestionAt(pkt, pos, q, len)
  {
    hide ReadName, W16, R16, NameAt;
    if ReadName(pkt, pos, 0).GoodName? {
      var n := ReadName(pkt, pos, 0);
      var p := pos + n.parsed;
      ReadNameExactly(pkt, pos, n.name, n.parsed);
      if p + 4 <= |pkt| {
        R16Exactly(pkt, p, R16(pkt, p));
        R16Exactly(pkt, p + 2, R16(pkt, p + 2));
      }
    }
    if QuestionAt(pkt, pos, q, len) {
      ReadNameExactly(pkt, pos, q.name, len - 4);
      R16Exactly(pkt, pos + len - 4, q.qtype);
      R16Exactly(pkt, pos + len - 2, q.qclass);
    }
  }

  // The data of a record, by its type: addresses of four and sixteen bytes; NS, CNAME and PTR with a name;
  // SRV with three numbers and a name; any other type as it stands.
  ghost predicate DataAt(pkt: seq<byte>, p: nat, rtype: nat, rdlength: nat, d: RData, len: nat) {
    if rtype == 1 || rtype == 28 then d.Address? && |d.ip| == len == (if rtype == 1 then 4 else 16) && At(pkt, p, d.ip)
    else if rtype == 2 || rtype == 5 || rtype == 12 then d.Target? && NameAt(pkt, p, d.name, len)
    else if rtype == 33 then
      && d.Service? && d.prio < 0x10000 && d.weight < 0x10000 && d.port < 0x10000 && len >= 6
      && At(pkt, p, W16(d.prio)) && At(pkt, p + 2, W16(d.weight)) && At(pkt, p + 4, W16(d.port)) && NameAt(pkt, p + 6, d.target, len - 6)
    else d.Raw? && |d.data| == rdlength == len && At(pkt, p, d.data)
  }

  lemma DataExactly(pkt: seq<byte>, p: nat, rtype: nat, rdlength: nat, d: RData, len: nat)
    requires p + rdlength <= |pkt|
    ensures ParseRData(pkt, p, rtype, rdlength) == Done(d, len) <==> DataAt(pkt, p, rtype, rdlength, d, len)
  {
    hide ReadName, W16, R16, NameAt;
    if rtype == TYPE_A || rtype == TYPE_AAAA {
      AddressExactly(pkt, p, if rtype == TYPE_A then 4 else 16, d);
    } else if NameType(rtype) {
      var n := ReadName(pkt, p, 0);
      if n.GoodName? { ReadNameExactly(pkt, p, n.name, n.parsed); }
      if d.Target? { ReadNameExactly(pkt, p, d.name, len); }
    } else if rtype == TYPE_SRV {
      ServiceExactly(pkt, p, rdlength, d, len);
    } else {
      AddressExactly(pkt, p, rdlength, d);
    }
  }

  // n bytes that are kept as they stand.
  lemma AddressExactly(pkt: seq<byte>, p: nat, n: nat, d: RData)
    ensures d.Address? && |d.ip| == n ==> (At(pkt, p, d.ip) <==> p + n <= |pkt| && d.ip == pkt[p..p + n])
    ensures d.Raw? && |d.data| == n ==> (At(pkt, p, d.data) <==> p + n <= |pkt| && d.data == pkt[p..p + n])
  {
    if d.Address? && At(pkt, p, d.ip) { AtText(pkt, p, d.ip); }
    if d.Raw? && At(pkt, p, d.data) { AtText(pkt, p, d.data); }
  }

  lemma ServiceExactly(pkt: seq<byte>, p: nat, rdlength: nat, d: RData, len: nat)
    requires p + rdlength <= |pkt|
    ensures ParseRData(pkt, p, 33, rdlength) == Done(d, len) <==> DataAt(pkt, p, 33, rdlength, d, len)
  {
    hide ReadName, W16, R16, NameAt;
    if p + 6 <= |pkt| {
      var n := ReadName(pkt, p + 6, 0);
      if n.GoodName? { ReadNameExactly(pkt, p + 6, n.name, n.parsed); }
      R16Exactly(pkt, p, R16(pkt, p));
      R16Exactly(pkt, p + 2, R16(pkt, p + 2));
      R16Exactly(pkt, p + 4, R16(pkt, p + 4));
      if d.Service? && len >= 6 {
        ReadNameExactly(pkt, p + 6, d.target, len - 6);
        R16Exactly(pkt, p, d.prio);
        R16Exactly(pkt, p + 2, d.weight);
        R16Exactly(pkt, p + 4, d.port);
      }
    }
  }

  // The types whose data is understood.
  predicate IsUnderstood(rtype: nat) { rtype in {1, 2, 5, 12, 28, 33} }

  ghost predicate FieldsAt(pkt: seq<byte>, p: nat, r: RR) {
    && p + 10 <= |pkt| && r.rtype < 0x10000 && r.rclass < 0x10000 && r.ttl < 0x1_0000_0000 && r.rdlength < 0x10000
    && At(pkt, p, W16(r.rtype)) && At(pkt, p + 2, W16(r.rclass)) && At(pkt, p + 4, W32(r.ttl)) && At(pkt, p + 8, W16(r.rdlength))
  }

  // A record of len bytes: k of them for its name, and m for its data. Records of the types that are
  // understood must be of class IN.
  ghost predicate RecordIn(pkt: seq<byte>, pos: nat, r: RR, k: nat, m: nat) {
    && NameAt(pkt, pos, r.name, k) && FieldsAt(pkt, pos + k, r) && (IsUnderstood(r.rtype) ==> r.rclass == 1)
    && pos + k + 10 + r.rdlength <= |pkt| && DataAt(pkt, pos + k + 10, r.rtype, r.rdlength, r.rdata, m)
  }

  ghost predicate RecordAt(pkt: seq<byte>, pos: nat, r: RR, len: nat) {
    exists k: nat, m: nat :: RecordIn(pkt, pos, r, k, m) && len == k + 10 + m
  }

  lemma FieldsExactly(pkt: seq<byte>, p: nat, r: RR)
    requires p + 10 <= |pkt|
    ensures FieldsAt(pkt, p, r) <==> r.rtype == R16(pkt, p) && r.rclass == R16(pkt, p + 2) && r.ttl == R32(pkt, p + 4) && r.rdlength == R16(pkt, p + 8)
  {
    hide W16, R16, W32, R32;
    R16Exactly(pkt, p, r.rtype);
    R16Exactly(pkt, p + 2, r.rclass);
    R32Exactly(pkt, p + 4, r.ttl);
    R16Exactly(pkt, p + 8, r.rdlength);
  }

  lemma RecordParses(pkt: seq<byte>, pos: nat, r: RR, k: nat, m: nat)
    requires RecordIn(pkt, pos, r, k, m)
    ensures ParseRR(pkt, pos) == Done(r, k + 10 + m)
  {
    hide ReadName, ParseRData, NameAt, DataAt, R16, R32, FieldsAt;
    ReadNameExactly(pkt, pos, r.name, k);
    FieldsEnd(pkt, pos + k, r);
    FieldsExactly(pkt, pos + k, r);
    DataExactly(pkt, pos + k + 10, r.rtype, r.rdlength, r.rdata, m);
  }

  lemma FieldsEnd(pkt: seq<byte>, p: nat, r: RR)
    requires FieldsAt(pkt, p, r)
    ensures p + 10 <= |pkt|
  {}

  lemma ParsedIsRecord(pkt: seq<byte>, pos: nat, r: RR, len: nat)
    requires ParseRR(pkt, pos) == Done(r, len)
    ensures RecordAt(pkt, pos, r, len)
  {
    hide ReadName, ParseRData, NameAt, DataAt, R16, R32, FieldsAt;
    var n := ReadName(pkt, pos, 0);
    var k := n.parsed;
    ReadNameExactly(pkt, pos, n.name, k);
    FieldsExactly(pkt, pos + k, r);
    var m := len - k - 10;
    DataExactly(pkt, pos + k + 10, r.rtype, r.rdlength, r.rdata, m);
    assert RecordIn(pkt, pos, r, k, m);
  }

  // The parser reads exactly the records that stand there.
  lemma RecordExactly(pkt: seq<byte>, pos: nat, r: RR, len: nat)
    ensures ParseRR(pkt, pos) == Done(r, len) <==> RecordAt(pkt, pos, r, len)
  {
    hide ParseRR, RecordIn;
    if ParseRR(pkt, pos) == Done(r, len) { ParsedIsRecord(pkt, pos, r, len); }
    if k: nat, m: nat :| RecordIn(pkt, pos, r, k, m) && len == k + 10 + m { RecordParses(pkt, pos, r, k, m); }
  }

  // For instance a record of a type that is not understood, with its name in full.
  lemma RawRecordReads(pkt: seq<byte>, pos: nat, n: Name, rtype: nat, rclass: nat, ttl: nat, data: seq<byte>)
    requires WellFormed(n) && !IsUnderstood(rtype) && rtype < 0x10000 && rclass < 0x10000 && ttl < 0x1_0000_0000 && |data| < 0x10000
    requires At(pkt, pos, Full(n) + (W16(rtype) + (W16(rclass) + (W32(ttl) + (W16(|data|) + data)))))
    ensures ParseRR(pkt, pos) == Done(RR(n, rtype, rclass, ttl, |data|, Raw(data)), |Full(n)| + 10 + |data|)
  {
    hide W16, W32, Full, WellFormed, ParseRR;
    AtSplit(pkt, pos, Full(n), W16(rtype) + (W16(rclass) + (W32(ttl) + (W16(|data|) + data))));
    var p := pos + |Full(n)|;
    AtSplit(pkt, p, W16(rtype), W16(rclass) + (W32(ttl) + (W16(|data|) + data)));
    AtSplit(pkt, p + 2, W16(rclass), W32(ttl) + (W16(|data|) + data));
    AtSplit(pkt, p + 4, W32(ttl), W16(|data|) + data);
    AtSplit(pkt, p + 8, W16(|data|), data);
    ReadFull(pkt, pos, n);
    ReadNameExactly(pkt, pos, n, |Full(n)|);
    hide At, NameAt;
    AtEnds(pkt, p + 10, data);
    assert RecordIn(pkt, pos, RR(n, rtype, rclass, ttl, |data|, Raw(data)), |Full(n)|, |data|);
    RecordParses(pkt, pos, RR(n, rtype, rclass, ttl, |data|, Raw(data)), |Full(n)|, |data|);
  }

  // What the printer prints is such a record when its names survive, so printed records and others can
  // stand in any order.
  lemma PrintedIsRecord(pkt: seq<byte>, pos: nat, size: nat, r: RR, tab: seq<Entry>)
    requires |pkt| <= 0x4000 && TabGood(pkt, tab) && RROk(r) && r.rclass == 1
    requires var o := PrintRR(pos, size, r, tab); o.Output? && At(pkt, pos, o.bytes)
    requires AllSurvive(NamesOf(tab), RRNames(r))
    ensures exists rdlength :: RecordAt(pkt, pos, r.(rdlength := rdlength), |PrintRR(pos, size, r, tab).bytes|)
  {
    hide ParseRR, PrintRR, AllSurvive, RecordAt, TabGood, RRNames, NoteAll;
    RRBack(pkt, pos, size, r, tab);
    var p := ParseRR(pkt, pos);
    RecordExactly(pkt, pos, p.value, p.len);
    assert p.value == r.(rdlength := p.value.rdlength);
  }

  // ---------------------------------------------------------------- sections and packets

  function Sum(lens: seq<nat>): nat { if lens == [] then 0 else lens[0] + Sum(lens[1..]) }

  function Cons<T>(x: T, len: nat, rest: Parsed<seq<T>>): Parsed<seq<T>> {
    if rest.Fail? then rest else Done([x] + rest.value, len + rest.len)
  }

  lemma ConsWhole<T>(xs: seq<T>, lens: seq<nat>)
    requires |xs| == |lens| > 0
    ensures Cons(xs[0], lens[0], Done(xs[1..], Sum(lens[1..]))) == Done(xs, Sum(lens))
  {
    assert xs == [xs[0]] + xs[1..];
  }

  lemma ConsParts<T>(x: T, len: nat, xs: seq<T>, lens: seq<nat>)
    ensures ([x] + xs)[0] == x && ([x] + xs)[1..] == xs && ([len] + lens)[1..] == lens && Sum([len] + lens) == len + Sum(lens)
  {
    assert ([len] + lens)[1..] == lens;
  }

  // One after the other, each in as many bytes as lens says.
  ghost predicate QuestionsIn(pkt: seq<byte>, pos: nat, qs: seq<Query>, lens: seq<nat>)
    decreases |qs|
  {
    |qs| == |lens| &&
    (qs == [] || (QuestionAt(pkt, pos, qs[0], lens[0]) && QuestionsIn(pkt, pos + lens[0], qs[1..], lens[1..])))
  }

  ghost predicate QuestionsAt(pkt: seq<byte>, pos: nat, qs: seq<Query>, len: nat) {
    exists lens :: QuestionsIn(pkt, pos, qs, lens) && Sum(lens) == len
  }

  lemma ParseQuestionsFirst(pkt: seq<byte>, pos: nat, n: nat)
    requires pos <= |pkt| && n > 0 && ParseQuery(pkt, pos).Done?
    ensures var q := ParseQuery(pkt, pos); ParseQueries(pkt, pos, n) == Cons(q.value, q.len, ParseQueries(pkt, pos + q.len, n - 1))
  {
    hide ParseQuery;
  }

  lemma FirstQuestionsDone(pkt: seq<byte>, pos: nat, n: nat)
    requires pos <= |pkt| && n > 0 && ParseQueries(pkt, pos, n).Done?
    ensures ParseQuery(pkt, pos).Done? && ParseQueries(pkt, pos + ParseQuery(pkt, pos).len, n - 1).Done?
  {
    hide ParseQuery;
  }

  lemma NoQuestions(pkt: seq<byte>, pos: nat)
    requires pos <= |pkt|
    ensures ParseQueries(pkt, pos, 0) == Done([], 0)
  {}

  lemma {:induction false} QuestionsParse(pkt: seq<byte>, pos: nat, qs: seq<Query>, lens: seq<nat>)
    requires pos <= |pkt| && QuestionsIn(pkt, pos, qs, lens)
    ensures ParseQueries(pkt, pos, |qs|) == Done(qs, Sum(lens))
    decreases |qs|
  {
    hide ParseQuery, QuestionAt, ParseQueries, Cons;
    if qs == [] {
      NoQuestions(pkt, pos);
    } else {
      QuestionExactly(pkt, pos, qs[0], lens[0]);
      ParseQuestionsFirst(pkt, pos, |qs|);
      QuestionsParse(pkt, pos + lens[0], qs[1..], lens[1..]);
      ConsWhole(qs, lens);
    }
  }

  lemma {:induction false} ParsedQuestions(pkt: seq<byte>, pos: nat, n: nat) returns (lens: seq<nat>)
    requires pos <= |pkt| && ParseQueries(pkt, pos, n).Done?
    ensures var r := ParseQueries(pkt, pos, n); QuestionsIn(pkt, pos, r.value, lens) && Sum(lens) == r.len
    decreases n
  {
    hide ParseQuery, QuestionAt, ParseQueries;
    lens := [];
    if n == 0 {
      assert |ParseQueries(pkt, pos, n).value| == 0;
      NoQuestions(pkt, pos);
    } else {
      FirstQuestionsDone(pkt, pos, n);
      var q := ParseQuery(pkt, pos);
      QuestionExactly(pkt, pos, q.value, q.len);
      ParseQuestionsFirst(pkt, pos, n);
      var rest := ParsedQuestions(pkt, pos + q.len, n - 1);
      lens := [q.len] + rest;
      ConsParts(q.value, q.len, ParseQueries(pkt, pos + q.len, n - 1).value, rest);
    }
  }

  lemma QuestionsExactly(pkt: seq<byte>, pos: nat, qs: seq<Query>, len: nat)
    requires pos <= |pkt|
    ensures ParseQueries(pkt, pos, |qs|) == Done(qs, len) <==> QuestionsAt(pkt, pos, qs, len)
  {
    hide ParseQueries, QuestionsIn;
    if ParseQueries(pkt, pos, |qs|) == Done(qs, len) {
      var lens := ParsedQuestions(pkt, pos, |qs|);
    }
    if lens :| QuestionsIn(pkt, pos, qs, lens) && Sum(lens) == len {
      QuestionsParse(pkt, pos, qs, lens);
    }
  }

  // One after the other, each in as many bytes as lens says.
  ghost predicate RecordsIn(pkt: seq<byte>, pos: nat, rs: seq<RR>, lens: seq<nat>)
    decreases |rs|
  {
    |rs| == |lens| &&
    (rs == [] || (RecordAt(pkt, pos, rs[0], lens[0]) && RecordsIn(pkt, pos + lens[0], rs[1..], lens[1..])))
  }

  ghost predicate RecordsAt(pkt: seq<byte>, pos: nat, rs: seq<RR>, len: nat) {
    exists lens :: RecordsIn(pkt, pos, rs, lens) && Sum(lens) == len
  }

  lemma ParseRecordsFirst(pkt: seq<byte>, pos: nat, n: nat)
    requires pos <= |pkt| && n > 0 && ParseRR(pkt, pos).Done?
    ensures var r := ParseRR(pkt, pos); ParseRRs(pkt, pos, n) == Cons(r.value, r.len, ParseRRs(pkt, pos + r.len, n - 1))
  {
    hide ParseRR;
  }

  lemma FirstRecordsDone(pkt: seq<byte>, pos: nat, n: nat)
    requires pos <= |pkt| && n > 0 && ParseRRs(pkt, pos, n).Done?
    ensures ParseRR(pkt, pos).Done? && ParseRRs(pkt, pos + ParseRR(pkt, pos).len, n - 1).Done?
  {
    hide ParseRR;
  }

  lemma NoRecords(pkt: seq<byte>, pos: nat)
    requires pos <= |pkt|
    ensures ParseRRs(pkt, pos, 0) == Done([], 0)
  {}

  lemma {:induction false} RecordsParse(pkt: seq<byte>, pos: nat, rs: seq<RR>, lens: seq<nat>)
    requires pos <= |pkt| && RecordsIn(pkt, pos, rs, lens)
    ensures ParseRRs(pkt, pos, |rs|) == Done(rs, Sum(lens))
    decreases |rs|
  {
    hide ParseRR, RecordAt, ParseRRs, Cons;
    if rs == [] {
      NoRecords(pkt, pos);
    } else {
      RecordExactly(pkt, pos, rs[0], lens[0]);
      ParseRecordsFirst(pkt, pos, |rs|);
      RecordsParse(pkt, pos + lens[0], rs[1..], lens[1..]);
      ConsWhole(rs, lens);
    }
  }

  lemma {:induction false} ParsedRecords(pkt: seq<byte>, pos: nat, n: nat) returns (lens: seq<nat>)
    requires pos <= |pkt| && ParseRRs(pkt, pos, n).Done?
    ensures var r := ParseRRs(pkt, pos, n); RecordsIn(pkt, pos, r.value, lens) && Sum(lens) == r.len
    decreases n
  {
    hide ParseRR, RecordAt, ParseRRs;
    lens := [];
    if n == 0 {
      assert |ParseRRs(pkt, pos, n).value| == 0;
      NoRecords(pkt, pos);
    } else {
      FirstRecordsDone(pkt, pos, n);
      var r := ParseRR(pkt, pos);
      RecordExactly(pkt, pos, r.value, r.len);
      ParseRecordsFirst(pkt, pos, n);
      var rest := ParsedRecords(pkt, pos + r.len, n - 1);
      lens := [r.len] + rest;
      ConsParts(r.value, r.len, ParseRRs(pkt, pos + r.len, n - 1).value, rest);
    }
  }

  lemma RecordsExactly(pkt: seq<byte>, pos: nat, rs: seq<RR>, len: nat)
    requires pos <= |pkt|
    ensures ParseRRs(pkt, pos, |rs|) == Done(rs, len) <==> RecordsAt(pkt, pos, rs, len)
  {
    hide ParseRRs, RecordsIn;
    if ParseRRs(pkt, pos, |rs|) == Done(rs, len) {
      var lens := ParsedRecords(pkt, pos, |rs|);
    }
    if lens :| RecordsIn(pkt, pos, rs, lens) && Sum(lens) == len {
      RecordsParse(pkt, pos, rs, lens);
    }
  }

  ghost predicate HeaderOf(pkt: seq<byte>, p: Packet) {
    && |pkt| >= 12 && p.id < 0x10000 && p.flags < 0x10000
    && |p.q| <= 256 && |p.ans| <= 256 && |p.ns| <= 256 && |p.arr| <= 256
    && At(pkt, 0, W16(p.id)) && At(pkt, 2, W16(p.flags)) && At(pkt, 4, W16(|p.q|)) && At(pkt, 6, W16(|p.ans|))
    && At(pkt, 8, W16(|p.ns|)) && At(pkt, 10, W16(|p.arr|))
  }

  // Where the four sections stand.
  ghost predicate SectionsIn(pkt: seq<byte>, p: Packet, q: nat, a: nat, n: nat, x: nat) {
    && QuestionsAt(pkt, 12, p.q, q) && RecordsAt(pkt, 12 + q, p.ans, a) && RecordsAt(pkt, 12 + q + a, p.ns, n)
    && RecordsAt(pkt, 12 + q + a + n, p.arr, x)
  }

  ghost predicate PacketAt(pkt: seq<byte>, p: Packet, len: nat) {
    HeaderOf(pkt, p) && exists q: nat, a: nat, n: nat, x: nat :: SectionsIn(pkt, p, q, a, n, x) && len == 12 + q + a + n + x
  }

  lemma HeaderExactly(pkt: seq<byte>, p: Packet)
    requires |pkt| >= 12
    ensures HeaderOf(pkt, p) <==>
      && p.id == R16(pkt, 0) && p.flags == R16(pkt, 2) && |p.q| == R16(pkt, 4) && |p.ans| == R16(pkt, 6)
      && |p.ns| == R16(pkt, 8) && |p.arr| == R16(pkt, 10) && |p.q| <= 256 && |p.ans| <= 256 && |p.ns| <= 256 && |p.arr| <= 256
  {
    hide W16, R16;
    R16Exactly(pkt, 0, p.id);
    R16Exactly(pkt, 2, p.flags);
    R16Exactly(pkt, 4, |p.q|);
    R16Exactly(pkt, 6, |p.ans|);
    R16Exactly(pkt, 8, |p.ns|);
    R16Exactly(pkt, 10, |p.arr|);
  }

  lemma PacketParses(pkt: seq<byte>, p: Packet, q: nat, a: nat, n: nat, x: nat)
    requires HeaderOf(pkt, p) && SectionsIn(pkt, p, q, a, n, x)
    ensures ParsePacket(pkt) == Done(p, 12 + q + a + n + x)
  {
    hide HeaderOf, R16, ParseQueries, ParseRecords, QuestionsAt, RecordsAt;
    HeaderEnd(pkt, p);
    HeaderExactly(pkt, p);
    QuestionsExactly(pkt, 12, p.q, q);
    SectionsParse(pkt, 12 + q, p.ans, p.ns, p.arr, a, n, x);
  }

  lemma HeaderEnd(pkt: seq<byte>, p: Packet)
    requires HeaderOf(pkt, p)
    ensures |pkt| >= 12
  {}

  lemma SectionsParse(pkt: seq<byte>, pos: nat, ans: seq<RR>, ns: seq<RR>, arr: seq<RR>, a: nat, n: nat, x: nat)
    requires pos <= |pkt| && RecordsAt(pkt, pos, ans, a) && RecordsAt(pkt, pos + a, ns, n) && RecordsAt(pkt, pos + a + n, arr, x)
    ensures ParseRecords(pkt, pos, |ans|, |ns|, |arr|) == Done((ans, ns, arr), a + n + x)
  {
    hide ParseRRs, RecordsAt;
    RecordsExactly(pkt, pos, ans, a);
    RecordsExactly(pkt, pos + a, ns, n);
    RecordsExactly(pkt, pos + a + n, arr, x);
  }

  lemma ParsedIsPacket(pkt: seq<byte>, p: Packet, len: nat)
    requires ParsePacket(pkt) == Done(p, len)
    ensures PacketAt(pkt, p, len)
  {
    hide R16, ParseQueries, ParseRRs, QuestionsAt, RecordsAt, HeaderOf;
    HeaderExactly(pkt, p);
    var q := ParseQueries(pkt, 12, |p.q|);
    QuestionsExactly(pkt, 12, p.q, q.len);
    var a := ParseRRs(pkt, 12 + q.len, |p.ans|);
    RecordsExactly(pkt, 12 + q.len, p.ans, a.len);
    var n := ParseRRs(pkt, 12 + q.len + a.len, |p.ns|);
    RecordsExactly(pkt, 12 + q.len + a.len, p.ns, n.len);
    var x := ParseRRs(pkt, 12 + q.len + a.len + n.len, |p.arr|);
    RecordsExactly(pkt, 12 + q.len + a.len + n.len, p.arr, x.len);
    assert SectionsIn(pkt, p, q.len, a.len, n.len, x.len);
  }

  // The parser accepts exactly the packets of this grammar, and reads what they say.
  lemma PacketExactly(pkt: seq<byte>, p: Packet, len: nat)
    ensures ParsePacket(pkt) == Done(p, len) <==> PacketAt(pkt, p, len)
  {
    hide ParsePacket, SectionsIn, HeaderOf;
    if ParsePacket(pkt) == Done(p, len) { ParsedIsPacket(pkt, p, len); }
    if PacketAt(pkt, p, len) {
      var q: nat, a: nat, n: nat, x: nat :| SectionsIn(pkt, p, q, a, n, x) && len == 12 + q + a + n + x;
      PacketParses(pkt, p, q, a, n, x);
    }
  }

  // ---------------------------------------------------------------- what is refused

  // A question is refused for its name or for want of four bytes after it.
  lemma QuestionRefused(pkt: seq<byte>, pos: nat, e: Error)
    ensures ParseQuery(pkt, pos) == Fail(e) <==>
      (e == InNamePtr && !HasName(pkt, pos)) || (e == InSize && exists n, k :: NameAt(pkt, pos, n, k) && pos + k + 4 > |pkt|)
  {
    hide ReadName, NameAt, R16;
    forall n, k ensures NameAt(pkt, pos, n, k) <==> ReadName(pkt, pos, 0) == GoodName(n, k) { ReadNameExactly(pkt, pos, n, k); }
    var r := ReadName(pkt, pos, 0);
    if r.GoodName? { assert NameAt(pkt, pos, r.name, r.parsed); }
  }

  // A section fails as its first bad record does.
  lemma {:induction false} FirstBadRecord(pkt: seq<byte>, pos: nat, rs: seq<RR>, lens: seq<nat>, n: nat, e: Error)
    requires pos <= |pkt| && RecordsIn(pkt, pos, rs, lens) && |rs| < n && ParseRR(pkt, pos + Sum(lens)) == Fail(e)
    ensures ParseRRs(pkt, pos, n) == Fail(e)
    decreases |rs|
  {
    hide ParseRR, RecordAt, ParseRRs;
    if rs == [] {
      FirstRecordsFail(pkt, pos, n);
    } else {
      RecordExactly(pkt, pos, rs[0], lens[0]);
      ParseRecordsFirst(pkt, pos, n);
      FirstBadRecord(pkt, pos + lens[0], rs[1..], lens[1..], n - 1, e);
    }
  }

  predicate IsInside(e: Error) { e == InSize || e == InNamePtr || e == InClass }

  lemma {:induction false} QuestionsRefused(pkt: seq<byte>, pos: nat, n: nat)
    requires pos <= |pkt|
    ensures ParseQueries(pkt, pos, n).Fail? ==> IsInside(ParseQueries(pkt, pos, n).error)
    decreases n
  {
    hide ParseQuery, ParseQueries;
    if n == 0 {
      NoQuestions(pkt, pos);
    } else {
      OneRefused(pkt, pos);
      var q := ParseQuery(pkt, pos);
      if q.Done? {
        ParseQuestionsFirst(pkt, pos, n);
        QuestionsRefused(pkt, pos + q.len, n - 1);
      } else {
        FirstQuestionsFail(pkt, pos, n);
      }
    }
  }

  lemma FirstQuestionsFail(pkt: seq<byte>, pos: nat, n: nat)
    requires pos <= |pkt| && n > 0 && ParseQuery(pkt, pos).Fail?
    ensures ParseQueries(pkt, pos, n) == Fail(ParseQuery(pkt, pos).error)
  {
    hide ParseQuery;
  }

  lemma {:induction false} RecordsRefused(pkt: seq<byte>, pos: nat, n: nat)
    requires pos <= |pkt|
    ensures ParseRRs(pkt, pos, n).Fail? ==> IsInside(ParseRRs(pkt, pos, n).error)
    decreases n
  {
    hide ParseRR, ParseRRs;
    if n == 0 {
      NoRecords(pkt, pos);
    } else {
      OneRefused(pkt, pos);
      var r := ParseRR(pkt, pos);
      if r.Done? {
        ParseRecordsFirst(pkt, pos, n);
        RecordsRefused(pkt, pos + r.len, n - 1);
      } else {
        FirstRecordsFail(pkt, pos, n);
      }
    }
  }

  lemma FirstRecordsFail(pkt: seq<byte>, pos: nat, n: nat)
    requires pos <= |pkt| && n > 0 && ParseRR(pkt, pos).Fail?
    ensures ParseRRs(pkt, pos, n) == Fail(ParseRR(pkt, pos).error)
  {
    hide ParseRR;
  }

  lemma OneRefused(pkt: seq<byte>, pos: nat)
    ensures ParseQuery(pkt, pos).Fail? ==> IsInside(ParseQuery(pkt, pos).error)
    ensures ParseRR(pkt, pos).Fail? ==> IsInside(ParseRR(pkt, pos).error)
  {
    hide ReadName, R16, R32;
  }

  // No bytes, too few bytes for a header, and too many records are told apart from errors in the sections.
  lemma HeaderRefused(pkt: seq<byte>)
    ensures ParsePacket(pkt) == Fail(Invalid) <==> pkt == []
    ensures 0 < |pkt| < 12 ==> ParsePacket(pkt) == Fail(InSize)
    ensures ParsePacket(pkt) == Fail(TooMany) <==>
      |pkt| >= 12 && (R16(pkt, 4) > 256 || R16(pkt, 6) > 256 || R16(pkt, 8) > 256 || R16(pkt, 10) > 256)
  {
    hide ParseQueries, ParseRecords, R16;
    if |pkt| >= 12 {
      var q := ParseQueries(pkt, 12, R16(pkt, 4));
      QuestionsRefused(pkt, 12, R16(pkt, 4));
      if q.Done? { SectionsRefused(pkt, 12 + q.len, R16(pkt, 6), R16(pkt, 8), R16(pkt, 10)); }
    }
  }

  lemma SectionsRefused(pkt: seq<byte>, pos: nat, an: nat, ns: nat, ar: nat)
    requires pos <= |pkt|
    ensures ParseRecords(pkt, pos, an, ns, ar).Fail? ==> IsInside(ParseRecords(pkt, pos, an, ns, ar).error)
  {
    hide ParseRRs;
    RecordsRefused(pkt, pos, an);
    var a := ParseRRs(pkt, pos, an);
    if a.Done? {
      RecordsRefused(pkt, pos + a.len, ns);
      var n := ParseRRs(pkt, pos + a.len, ns);
      if n.Done? { RecordsRefused(pkt, pos + a.len + n.len, ar); }
    }
  }

  // The first thing that is wrong with a record: its name, too few bytes for its fields, another class for a
  // type that is understood, too few bytes for its data, a bad name in its data.
  lemma RecordRefused(pkt: seq<byte>, pos: nat, e: Error)
    ensures ParseRR(pkt, pos) == Fail(e) <==>
      (e == InNamePtr && !HasName(pkt, pos)) ||
      exists n, k :: NameAt(pkt, pos, n, k) && RefusedAfterName(pkt, pos + k, e)
  {
    hide ReadName, NameAt, RefusedAfterName;
    forall n, k ensures NameAt(pkt, pos, n, k) <==> ReadName(pkt, pos, 0) == GoodName(n, k) { ReadNameExactly(pkt, pos, n, k); }
    var r := ReadName(pkt, pos, 0);
    if r.GoodName? {
      assert NameAt(pkt, pos, r.name, r.parsed);
      AfterName(pkt, pos, r.name, r.parsed, e);
    }
  }

  ghost predicate HasName(pkt: seq<byte>, pos: nat) { exists n, k :: NameAt(pkt, pos, n, k) }

  ghost predicate RefusedAfterName(pkt: seq<byte>, p: nat, e: Error) {
    (p + 10 > |pkt| && e == InSize) ||
    exists r: RR :: FieldsAt(pkt, p, r) &&
      if IsUnderstood(r.rtype) && r.rclass != 1 then e == InClass
      else if p + 10 + r.rdlength > |pkt| then e == InSize
      else DataRefused(pkt, p + 10, r.rtype, e)
  }

  // Addresses need their bytes, SRV its numbers, and names must be good.
  ghost predicate DataRefused(pkt: seq<byte>, p: nat, rtype: nat, e: Error) {
    if rtype == 1 then p + 4 > |pkt| && e == InSize
    else if rtype == 28 then p + 16 > |pkt| && e == InSize
    else if rtype == 2 || rtype == 5 || rtype == 12 then e == InNamePtr && !HasName(pkt, p)
    else if rtype == 33 then
      if p + 6 > |pkt| then e == InSize else e == InNamePtr && !HasName(pkt, p + 6)
    else false
  }

  lemma NoName(pkt: seq<byte>, p: nat)
    ensures ReadName(pkt, p, 0).BadName? <==> !HasName(pkt, p)
  {
    hide ReadName, NameAt;
    forall n, k ensures NameAt(pkt, p, n, k) <==> ReadName(pkt, p, 0) == GoodName(n, k) { ReadNameExactly(pkt, p, n, k); }
    var r := ReadName(pkt, p, 0);
    if r.GoodName? { assert NameAt(pkt, p, r.name, r.parsed); }
  }

  lemma DataRefusedExactly(pkt: seq<byte>, p: nat, rtype: nat, rdlength: nat, e: Error)
    requires p + rdlength <= |pkt|
    ensures ParseRData(pkt, p, rtype, rdlength) == Fail(e) <==> DataRefused(pkt, p, rtype, e)
  {
    hide ReadName, NameAt, R16;
    NoName(pkt, p);
    NoName(pkt, p + 6);
  }

  lemma AfterName(pkt: seq<byte>, pos: nat, n: Name, k: nat, e: Error)
    requires ReadName(pkt, pos, 0) == GoodName(n, k)
    ensures ParseRR(pkt, pos) == Fail(e) <==> RefusedAfterName(pkt, pos + k, e)
  {
    hide ReadName, NameAt, R16, R32, ParseRData, DataRefused, FieldsAt;
    var p := pos + k;
    if p + 10 <= |pkt| {
      forall r: RR ensures FieldsAt(pkt, p, r) <==> r.rtype == R16(pkt, p) && r.rclass == R16(pkt, p + 2) && r.ttl == R32(pkt, p + 4) && r.rdlength == R16(pkt, p + 8) {
        FieldsExactly(pkt, p, r);
      }
      var r := RR(n, R16(pkt, p), R16(pkt, p + 2), R32(pkt, p + 4), R16(pkt, p + 8), Raw([]));
      assert FieldsAt(pkt, p, r);
      if p + 10 + r.rdlength <= |pkt| { DataRefusedExactly(pkt, p + 10, r.rtype, r.rdlength, e); }
    } else {
      forall r: RR | FieldsAt(pkt, p, r) ensures false { FieldsEnd(pkt, p, r); }
    }
  }
}
