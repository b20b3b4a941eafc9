/** Printing a DNS packet (dns_server.c; sections 4.1.1 to 4.1.4 of RFC 1035), with the table of names
    that later names may point to. */
module DnsPrinter {
  import opened Bytes
  import opened DnsTypes
  import opened DnsName
  import opened DnsParser

  const MAX_LABEL := 32

  // A name printed in full, and where.
  datatype Entry = Entry(pos: nat, name: Name)

  datatype Output = Failed | Output(bytes: seq<byte>, tab: seq<Entry>)

  function W16(v: nat): (b: seq<byte>)
    requires v < 0x10000
    ensures |b| == 2
  {
    [v / 256, v % 256]
  }

  function W32(v: nat): (b: seq<byte>)
    requires v < 0x100000000
    ensures |b| == 4
  {
    W16(v / 65536) + W16(v % 65536)
  }

  // A length cast to 16 bits.
  function ToWord(n: nat): (w: nat)
    ensures w < 0x10000
  {
    if n < 0x10000 then n else n % 0x10000
  }

  // pos | 0xC000, cast to 16 bits.
  function PointerTo(pos: nat): (w: nat)
    ensures w < 0x10000
  {
    0xC000 + if pos < 0x4000 then pos else pos % 0x4000
  }

  // What the table compares a name with: the bytes after the first length byte of a printed name,
  // as many as that name has characters.
  function TabText(n: Name): (t: Name)
    ensures |t| == |n|
  {
    WireSize(n);
    Full(n)[1..1 + |n|]
  }

  // The first known name from i on whose table text is the name, or their number.
  function Find(known: seq<Name>, i: nat, name: Name): (k: nat)
    requires i <= |known|
    ensures i <= k <= |known| && (k < |known| ==> TabText(known[k]) == name)
    ensures forall j :: i <= j < k ==> TabText(known[j]) != name
    decreases |known| - i
  {
    hide TabText;
    if i == |known| || TabText(known[i]) == name then i else Find(known, i + 1, name)
  }

  function NamesOf(tab: seq<Entry>): (ns: seq<Name>)
    ensures |ns| == |tab| && forall i :: 0 <= i < |tab| ==> ns[i] == tab[i].name
  {
    seq(|tab|, i requires 0 <= i < |tab| => tab[i].name)
  }

  function PrintName(pos: nat, size: nat, name: Name, tab: seq<Entry>): (o: Output)
    ensures o.Output? ==> |o.bytes| <= size || |o.bytes| == 2
  {
    var i := Find(NamesOf(tab), 0, name);
    if i < |tab| then Output(W16(PointerTo(tab[i].pos)), tab)
    else if size < |Full(name)| then Failed
    else Output(Full(name), if |tab| < MAX_LABEL then tab + [Entry(pos, name)] else tab)
  }

  // The fields fit their C types, and the data is of the kind its type says.
  predicate RROk(r: RR) {
    && r.rtype < 0x10000 && r.rclass < 0x10000 && r.ttl < 0x100000000
    && (r.rtype == TYPE_A ==> r.rdata.Address? && |r.rdata.ip| == 4)
    && (r.rtype == TYPE_AAAA ==> r.rdata.Address? && |r.rdata.ip| == 16)
    && (NameType(r.rtype) ==> r.rdata.Target?)
    && (r.rtype == TYPE_SRV ==>
          r.rdata.Service? && r.rdata.prio < 0x10000 && r.rdata.weight < 0x10000 && r.rdata.port < 0x10000)
  }

  // Data that ends in a name: its length, the fields before the name, the name.
  function PrintFields(pos: nat, size: nat, fields: seq<byte>, name: Name, tab: seq<Entry>): (o: Output)
    ensures o.Output? ==> |o.bytes| <= size
  {
    if size < |fields| + 4 then Failed
    else
      var gap := |fields| + 2;
      var n := PrintName(pos + gap, size - gap, name, tab);
      if n.Failed? then Failed else Output(W16(ToWord(|n.bytes| + |fields|)) + fields + n.bytes, n.tab)
  }

  function PrintRData(pos: nat, size: nat, r: RR, tab: seq<Entry>): (o: Output)
    requires RROk(r)
    ensures o.Output? ==> |o.bytes| <= size
  {
    if r.rtype == TYPE_A || r.rtype == TYPE_AAAA then
      if size < |r.rdata.ip| + 2 then Failed else Output(W16(|r.rdata.ip|) + r.rdata.ip, tab)
    else if NameType(r.rtype) then PrintFields(pos, size, [], r.rdata.name, tab)
    else if r.rtype == TYPE_SRV then PrintFields(pos, size, Fixed3(r.rdata), r.rdata.target, tab)
    else Failed
  }

  function Fixed3(d: RData): (b: seq<byte>)
    requires d.Service? && d.prio < 0x10000 && d.weight < 0x10000 && d.port < 0x10000
    ensures |b| == 6
  {
    W16(d.prio) + W16(d.weight) + W16(d.port)
  }

  // Type, class and TTL.
  function FixedRR(r: RR): (b: seq<byte>)
    requires r.rtype < 0x10000 && r.rclass < 0x10000 && r.ttl < 0x100000000
    ensures |b| == 8
  {
    W16(r.rtype) + W16(r.rclass) + W32(r.ttl)
  }

  function PrintRR(pos: nat, size: nat, r: RR, tab: seq<Entry>): (o: Output)
    requires RROk(r)
    ensures o.Output? ==> |o.bytes| <= size
  {
    var n := PrintName(pos, size, r.name, tab);
    if n.Failed? || size < |n.bytes| + 8 then Failed
    else
      var d := PrintRData(pos + |n.bytes| + 8, size - |n.bytes| - 8, r, n.tab);
      if d.Failed? then Failed else Output(n.bytes + FixedRR(r) + d.bytes, d.tab)
  }

  predicate QueryOk(q: Query) { q.qtype < 0x10000 && q.qclass < 0x10000 }

  predicate QueriesOk(qs: seq<Query>) { forall i :: 0 <= i < |qs| ==> QueryOk(qs[i]) }

  predicate RRsOk(rs: seq<RR>) { forall i :: 0 <= i < |rs| ==> RROk(rs[i]) }

  function PrintQuery(pos: nat, size: nat, q: Query, tab: seq<Entry>): (o: Output)
    requires QueryOk(q)
    ensures o.Output? ==> 4 <= |o.bytes| <= size
  {
    var n := PrintName(pos, size, q.name, tab);
    if n.Failed? || size < |n.bytes| + 4 then Failed
    else Output(n.bytes + (W16(q.qtype) + W16(q.qclass)), n.tab)
  }

  // The four bytes after a question's name are not charged to size.
  function PrintQueries(pos: nat, size: nat, qs: seq<Query>, tab: seq<Entry>): (o: Output)
    requires QueriesOk(qs)
    ensures o.Output? ==> 4 * |qs| <= |o.bytes| <= size + 4 * |qs|
    decreases |qs|
  {
    if qs == [] then Output([], tab)
    else
      var q := PrintQuery(pos, size, qs[0], tab);
      if q.Failed? then Failed
      else
        var rest := PrintQueries(pos + |q.bytes|, size - (|q.bytes| - 4), qs[1..], q.tab);
        if rest.Failed? then Failed else Output(q.bytes + rest.bytes, rest.tab)
  }

  function PrintRRs(pos: nat, size: nat, rs: seq<RR>, tab: seq<Entry>): (o: Output)
    requires RRsOk(rs)
    ensures o.Output? ==> |o.bytes| <= size
    decreases |rs|
  {
    if rs == [] then Output([], tab)
    else
      var r := PrintRR(pos, size, rs[0], tab);
      if r.Failed? then Failed
      else
        var rest := PrintRRs(pos + |r.bytes|, size - |r.bytes|, rs[1..], r.tab);
        if rest.Failed? then Failed else Output(r.bytes + rest.bytes, rest.tab)
  }

  predicate PacketOk(p: Packet) {
    && p.id < 0x10000 && p.flags < 0x10000
    && |p.q| < 0x10000 && |p.ans| < 0x10000 && |p.ns| < 0x10000 && |p.arr| < 0x10000
    && QueriesOk(p.q) && RRsOk(p.ans) && RRsOk(p.ns) && RRsOk(p.arr)
  }

  function Header(p: Packet): (b: seq<byte>)
    requires PacketOk(p)
    ensures |b| == HEADER
  {
    W16(p.id) + W16(p.flags) + W16(|p.q|) + W16(|p.ans|) + W16(|p.ns|) + W16(|p.arr|)
  }

  // The three record sections.
  function PrintRecords(pos: nat, size: nat, p: Packet, tab: seq<Entry>): (o: Output)
    requires PacketOk(p)
    ensures o.Output? ==> |o.bytes| <= size
  {
    var a := PrintRRs(pos, size, p.ans, tab);
    if a.Failed? then Failed
    else
      var n := PrintRRs(pos + |a.bytes|, size - |a.bytes|, p.ns, a.tab);
      if n.Failed? then Failed
      else
        var x := PrintRRs(pos + |a.bytes| + |n.bytes|, size - |a.bytes| - |n.bytes|, p.arr, n.tab);
        if x.Failed? then Failed else Output(a.bytes + n.bytes + x.bytes, x.tab)
  }

  function PrintPacket(p: Packet, size: nat): (o: Output)
    requires PacketOk(p)
    ensures o.Output? ==> HEADER <= |o.bytes| <= size + 4 * |p.q|
  {
    if size < HEADER then Failed
    else
      var q := PrintQueries(HEADER, size - HEADER, p.q, []);
      if q.Failed? then Failed
      else
        var rs := PrintRecords(HEADER + |q.bytes|, size - HEADER - (|q.bytes| - 4 * |p.q|), p, q.tab);
        if rs.Failed? then Failed else Output(Header(p) + q.bytes + rs.bytes, rs.tab)
  }

  // ---------------------------------------------------------------- the printer

  // Every entry's name stands in full where the entry says.
  ghost predicate TabAt(out: seq<byte>, tab: seq<Entry>) {
    forall i :: 0 <= i < |tab| ==> At(out, tab[i].pos, Full(tab[i].name))
  }

  lemma TabAtPrefix(out: seq<byte>, more: seq<byte>, tab: seq<Entry>)
    requires TabAt(out, tab)
    ensures TabAt(out + more, tab)
  {
    hide Full;
    forall i | 0 <= i < |tab| ensures At(out + more, tab[i].pos, Full(tab[i].name)) {
      AtPrefix(out, more, tab[i].pos, Full(tab[i].name));
    }
  }

  // The table text of a name is found again behind its first length byte.
  lemma TabTextAt(out: seq<byte>, pos: nat, n: Name)
    requires At(out, pos, Full(n))
    ensures pos + 1 + |n| <= |out| && out[pos + 1..pos + 1 + |n|] == TabText(n)
  {
    WireSize(n);
    AtText(out, pos, Full(n));
    hide Wire;
    assert out[pos + 1..pos + 1 + |n|] == out[pos..pos + |Full(n)|][1..1 + |n|];
  }

  lemma {:induction false} FirstDotIs(n: Name, k: nat)
    requires k <= |n| && DOT !in n[..k] && (k < |n| ==> n[k] == DOT)
    ensures FirstDot(n) == k
  {
    if k > 0 {
      assert n[0] == n[..k][0] && n[1..][..k - 1] == n[..k][1..];
      FirstDotIs(n[1..], k - 1);
    }
  }

  // Printing the label that ends at end takes one step of Wire.
  lemma WireStep(name: Name, start: nat, end: nat)
    requires start <= end <= |name| && start < |name|
    requires DOT !in name[start..end] && (end < |name| ==> name[end] == DOT)
    ensures var next := if end < |name| then end + 1 else end;
      Wire(name[start..]) == [ToByte(end - start)] + name[start..end] + Wire(name[next..])
  {
    var n := name[start..];
    assert n[..end - start] == name[start..end];
    FirstDotIs(n, end - start);
    assert AfterDot(n) == name[if end < |name| then end + 1 else end..];
  }

  // The end of the label that starts at start.
  method EndOfLabel(name: Name, start: nat) returns (end: nat)
    requires start <= |name|
    ensures start <= end <= |name| && DOT !in name[start..end] && (end < |name| ==> name[end] == DOT)
  {
    end := start;
    while end != |name| && name[end] != DOT
      invariant start <= end <= |name| && DOT !in name[start..end]
    {
      end := end + 1;
    }
  }

  // struct label_tab
  datatype Slot = Slot(pos: nat, slen: nat)

  class Printer {
    const buf: array<byte>
    var slots: seq<Slot>
    ghost var entries: seq<Entry>

    ghost predicate SlotsOk()
      reads this
    {
      |slots| == |entries| && forall i :: 0 <= i < |slots| ==> slots[i] == Slot(entries[i].pos, |entries[i].name|)
    }

    // The first pos bytes of the buffer are printed, and the table describes them.
    ghost predicate Ready(pos: nat)
      reads this, buf
    {
      pos <= buf.Length && SlotsOk() && TabAt(buf[..pos], entries)
    }

    // The printer went on from pos and produced o, or gave up.
    twostate predicate Printed(pos: nat, len: int, o: Output)
      reads this, buf
    {
      && (len < 0 <==> o.Failed?)
      && (o.Output? ==>
            len == |o.bytes| && Ready(pos + len) && entries == o.tab && buf[..pos + len] == old(buf[..])[..pos] + o.bytes)
    }

    constructor (buf: array<byte>)
      ensures this.buf == buf && slots == [] && entries == [] && Ready(0)
    {
      this.buf := buf;
      slots, entries := [], [];
    }

    // The loop over the labels, and the terminating zero.
    method PutLabels(size: nat, pos: nat, name: Name) returns (len: int)
      requires pos + size <= buf.Length
      modifies buf
      ensures len < 0 <==> size < |Full(name)|
      ensures len >= 0 ==> len == |Full(name)| && buf[..pos + len] == old(buf[..pos]) + Full(name)
    {
      hide Wire;
      var p, left, start := pos, size, 0;
      ghost var done: seq<byte> := [];
      assert name[0..] == name && Wire(name) == done + Wire(name[start..]);
      while start != |name|
        invariant start <= |name| && 0 <= left && left + (p - pos) == size && |done| == p - pos >= 0
        invariant Wire(name) == done + Wire(name[start..])
        invariant buf[..p] == old(buf[..pos]) + done
        decreases |name| - start
      {
        var end := EndOfLabel(name, start);
        WireStep(name, start, end);
        var slen := end - start;
        if left < slen + 1 {
          return -1;
        }
        Write(buf, p, [ToByte(slen)] + name[start..end]);
        ghost var lab := [ToByte(slen)] + name[start..end];
        left, p := left - (slen + 1), p + (slen + 1);
        start := if end != |name| then end + 1 else end;
        Regroup(old(buf[..pos]), done, lab, Wire(name[start..]));
        done := done + lab;
      }
      assert Wire(name[start..]) == [] by { WireSize(name[start..]); }
      assert Wire(name) == done;
      if left == 0 {
        return -1;
      }
      Write(buf, p, [0]);
      p := p + 1;
      len := p - pos;
    }

    // The first slot whose text in the buffer is the name.
    method Lookup(pos: nat, name: Name) returns (i: nat)
      requires Ready(pos)
      ensures i == Find(NamesOf(entries), 0, name)
    {
      i := 0;
      while i < |slots|
        invariant i <= |slots| && Find(NamesOf(entries), i, name) == Find(NamesOf(entries), 0, name)
      {
        TabTextAt(buf[..pos], entries[i].pos, entries[i].name);
        var from := slots[i].pos + 1;
        assert buf[from..from + slots[i].slen] == buf[..pos][from..from + slots[i].slen];
        if buf[from..from + slots[i].slen] == name {
          return;
        }
        i := i + 1;
      }
    }

    // print_name
    method PutName(size: nat, pos: nat, name: Name) returns (len: int)
      requires Ready(pos) && pos + size <= buf.Length && pos + 2 <= buf.Length
      modifies this, buf
      ensures Printed(pos, len, PrintName(pos, size, name, old(entries)))
    {
      hide Wire, TabText, Find, W16, TabAt;
      PrintNameTab(buf[..pos], size, name, entries);
      var i := Lookup(pos, name);
      if i != |slots| {
        Write(buf, pos, W16(PointerTo(slots[i].pos)));
        return 2;
      }
      if |slots| < MAX_LABEL {
        slots, entries := slots + [Slot(pos, |name|)], entries + [Entry(pos, name)];
      }
      len := PutLabels(size, pos, name);
    }

    // Write fields with two bytes left free before them.
    method PutAhead(pos: nat, fields: seq<byte>)
      requires Ready(pos) && pos + 2 + |fields| <= buf.Length
      modifies buf
      ensures Ready(pos + 2 + |fields|) && buf[..pos] == old(buf[..pos]) && buf[pos + 2..pos + 2 + |fields|] == fields
    {
      hide TabAt, SlotsOk;
      ghost var out, b0 := buf[..pos], buf[..];
      Write(buf, pos + 2, fields);
      GapLeft(b0, buf[..], pos, fields);
      TabAtPrefix(out, buf[pos..pos + 2 + |fields|], entries);
    }

    // The rdata length goes in front of the data once the name is printed.
    method PutFields(size: nat, pos: nat, fields: seq<byte>, name: Name) returns (len: int)
      requires Ready(pos) && pos + size <= buf.Length
      modifies this, buf
      ensures Printed(pos, len, PrintFields(pos, size, fields, name, old(entries)))
    {
      hide Wire, Find, W16, PrintName, ToWord, TabAt, SlotsOk;
      if size < |fields| + 4 {
        return -1;
      }
      var p := pos + 2 + |fields|;
      ghost var out := buf[..pos];
      PutAhead(pos, fields);
      ghost var b1 := buf[..];
      len := PutName(size - |fields| - 2, p, name);
      if len < 0 {
        return -1;
      }
      ghost var bytes, b2 := PrintName(p, size - |fields| - 2, name, old(entries)).bytes, buf[..];
      var rdlen := W16(ToWord(len + |fields|));
      Write(buf, pos, rdlen);
      GapFilled(out, b1, b2, buf[..], pos, fields, bytes, rdlen);
      TabAtPrefix(out, rdlen + fields, old(entries));
      PrintNameTab(out + (rdlen + fields), size - |fields| - 2, name, old(entries));
      len := len + |fields| + 2;
    }

    // The part of print_rr after the TTL
    method PutRData(size: nat, pos: nat, r: RR) returns (len: int)
      requires Ready(pos) && RROk(r) && pos + size <= buf.Length
      modifies this, buf
      ensures Printed(pos, len, PrintRData(pos, size, r, old(entries)))
    {
      hide W16, PrintFields, TabAt, SlotsOk;
      if r.rtype == TYPE_A || r.rtype == TYPE_AAAA {
        if size < |r.rdata.ip| + 2 {
          return -1;
        }
        ghost var out := buf[..pos];
        Write(buf, pos, W16(|r.rdata.ip|));
        Write(buf, pos + 2, r.rdata.ip);
        TabAtPrefix(out, W16(|r.rdata.ip|) + r.rdata.ip, entries);
        assert buf[..pos + 2 + |r.rdata.ip|] == out + (W16(|r.rdata.ip|) + r.rdata.ip);
        len := 2 + |r.rdata.ip|;
      } else if NameType(r.rtype) {
        len := PutFields(size, pos, [], r.rdata.name);
      } else if r.rtype == TYPE_SRV {
        len := PutFields(size, pos, Fixed3(r.rdata), r.rdata.target);
      } else {
        len := -1;
      }
    }

    method PutRR(size: nat, pos: nat, r: RR) returns (len: int)
      requires Ready(pos) && RROk(r) && pos + size <= buf.Length && pos + 2 <= buf.Length
      modifies this, buf
      ensures Printed(pos, len, PrintRR(pos, size, r, old(entries)))
    {
      hide Wire, Find, W16, PrintName, PrintRData, TabAt, SlotsOk;
      len := PutName(size, pos, r.name);
      if len < 0 || size < len + 8 {
        return -1;
      }
      ghost var out := buf[..pos + len];
      var p := pos + len;
      Write(buf, p, FixedRR(r));
      TabAtPrefix(out, FixedRR(r), entries);
      var dataLen := PutRData(size - len - 8, p + 8, r);
      if dataLen < 0 {
        return -1;
      }
      len := len + 8 + dataLen;
    }

    method PutQuery(size: nat, pos: nat, q: Query) returns (len: int)
      requires Ready(pos) && QueryOk(q) && pos + size <= buf.Length && pos + 2 <= buf.Length
      modifies this, buf
      ensures Printed(pos, len, PrintQuery(pos, size, q, old(entries)))
    {
      hide Wire, Find, W16, PrintName, TabAt, SlotsOk;
      len := PutName(size, pos, q.name);
      if len < 0 || size < len + 4 {
        return -1;
      }
      var fixed := W16(q.qtype) + W16(q.qclass);
      ghost var out := buf[..pos + len];
      Write(buf, pos + len, fixed);
      TabAtPrefix(out, fixed, entries);
      len := len + 4;
    }

    // The questions of print_packet; four bytes each are not charged to size.
    method PutQueries(size: nat, pos: nat, qs: seq<Query>) returns (len: int, left: nat)
      requires Ready(pos) && QueriesOk(qs) && pos + size + 4 * |qs| + 2 <= buf.Length
      modifies this, buf
      ensures Printed(pos, len, PrintQueries(pos, size, qs, old(entries)))
      ensures len >= 0 ==> left + len == size + 4 * |qs|
    {
      hide PrintQuery, PrintQueries, TabAt, Continued, SlotsOk;
      ghost var whole := PrintQueries(pos, size, qs, entries);
      StartContinued(whole);
      ghost var out, done: seq<byte> := buf[..pos], [];
      var p := pos;
      left := size;
      assert qs[0..] == qs;
      for i := 0 to |qs|
        invariant pos <= p && left + (p - pos) == size + 4 * i
        invariant Ready(p) && |done| == p - pos && buf[..p] == out + done
        invariant Continued(whole, done, PrintQueries(p, left, qs[i..], entries))
      {
        assert qs[i..][0] == qs[i] && qs[i..][1..] == qs[i + 1..];
        ghost var bytes := PrintQuery(p, left, qs[i], entries);
        QueriesStep(p, left, qs[i..], entries, whole, done);
        var n := PutQuery(left, p, qs[i]);
        if n < 0 {
          return -1, 0;
        }
        p, left := p + n, left - (n - 4);
        Regroup(out, done, bytes.bytes, []);
        done := done + bytes.bytes;
      }
      len := p - pos;
      NoneLeft(p, left, entries);
      EndContinued(whole, done, PrintQueries(p, left, [], entries));
    }

    // One record section of print_packet.
    method PutRRs(size: nat, pos: nat, rs: seq<RR>) returns (len: int)
      requires Ready(pos) && RRsOk(rs) && pos + size + 2 <= buf.Length
      modifies this, buf
      ensures Printed(pos, len, PrintRRs(pos, size, rs, old(entries)))
    {
      hide PrintRR, PrintRRs, TabAt, Continued, SlotsOk;
      ghost var whole := PrintRRs(pos, size, rs, entries);
      StartContinued(whole);
      ghost var out, done: seq<byte> := buf[..pos], [];
      var p, left := pos, size;
      assert rs[0..] == rs;
      for i := 0 to |rs|
        invariant pos <= p && 0 <= left && left + (p - pos) == size
        invariant Ready(p) && |done| == p - pos && buf[..p] == out + done
        invariant Continued(whole, done, PrintRRs(p, left, rs[i..], entries))
      {
        assert rs[i..][0] == rs[i] && rs[i..][1..] == rs[i + 1..];
        ghost var bytes := PrintRR(p, left, rs[i], entries);
        RRsStep(p, left, rs[i..], entries, whole, done);
        var n := PutRR(left, p, rs[i]);
        if n < 0 {
          return -1;
        }
        p, left := p + n, left - n;
        Regroup(out, done, bytes.bytes, []);
        done := done + bytes.bytes;
      }
      len := p - pos;
      NoneLeft(p, left, entries);
      EndContinued(whole, done, PrintRRs(p, left, [], entries));
    }

    method PutRecords(size: nat, pos: nat, rec: Packet) returns (len: int)
      requires Ready(pos) && PacketOk(rec) && pos + size + 2 <= buf.Length
      modifies this, buf
      ensures Printed(pos, len, PrintRecords(pos, size, rec, old(entries)))
    {
      hide PrintRRs, TabAt, RRsOk, QueriesOk, PacketOk, SlotsOk, Ready;
      SectionsOk(rec);
      ghost var a := PrintRRs(pos, size, rec.ans, entries);
      len := PutRRs(size, pos, rec.ans);
      if len < 0 {
        return -1;
      }
      ghost var n := PrintRRs(pos + len, size - len, rec.ns, entries);
      var nsLen := PutRRs(size - len, pos + len, rec.ns);
      if nsLen < 0 {
        return -1;
      }
      len := len + nsLen;
      ghost var x := PrintRRs(pos + len, size - len, rec.arr, entries);
      var arLen := PutRRs(size - len, pos + len, rec.arr);
      if arLen < 0 {
        return -1;
      }
      len := len + arLen;
      Regroup3(old(buf[..pos]), a.bytes, n.bytes, x.bytes);
    }
  }

  lemma SectionsOk(p: Packet)
    requires PacketOk(p)
    ensures RRsOk(p.ans) && RRsOk(p.ns) && RRsOk(p.arr)
  {}

  // print_packet. The buffer must have room for the four bytes per question, and for a pointer, that
  // the code does not charge to size.
  method Print(rec: Packet, pkt: array<byte>, size: nat) returns (len: int)
    requires PacketOk(rec) && size + 4 * |rec.q| + 2 <= pkt.Length
    modifies pkt
    ensures len < 0 <==> PrintPacket(rec, size).Failed?
    ensures len >= 0 ==> len == |PrintPacket(rec, size).bytes| && pkt[..len] == PrintPacket(rec, size).bytes
  {
    hide PrintQueries, PrintRecords, TabAt, Header, RRsOk, QueriesOk;
    if size < HEADER {
      return -1;
    }
    var w := new Printer(pkt);
    Write(pkt, 0, Header(rec));
    assert pkt[..HEADER] == Header(rec);
    TabAtEmpty(pkt[..HEADER]);
    var left;
    len, left := w.PutQueries(size - HEADER, HEADER, rec.q);
    if len < 0 {
      return -1;
    }
    ghost var q := PrintQueries(HEADER, size - HEADER, rec.q, []);
    var n := w.PutRecords(left, HEADER + len, rec);
    if n < 0 {
      return -1;
    }
    len := HEADER + len + n;
  }

  lemma TabAtEmpty(out: seq<byte>)
    ensures TabAt(out, [])
  {}

  // whole is what was done and then rest.
  ghost predicate Continued(whole: Output, done: seq<byte>, rest: Output) {
    if rest.Failed? then whole.Failed? else whole == Output(done + rest.bytes, rest.tab)
  }

  lemma StartContinued(whole: Output)
    ensures Continued(whole, [], whole)
  {
    assert whole.Output? ==> [] + whole.bytes == whole.bytes;
  }

  lemma EndContinued(whole: Output, done: seq<byte>, rest: Output)
    requires Continued(whole, done, rest) && rest.Output? && rest.bytes == []
    ensures whole == Output(done, rest.tab)
  {
    assert done + [] == done;
  }

  lemma NoneLeft(pos: nat, size: nat, tab: seq<Entry>)
    ensures PrintQueries(pos, size, [], tab) == PrintRRs(pos, size, [], tab) == Output([], tab)
  {}

  lemma QueriesStep(pos: nat, size: nat, qs: seq<Query>, tab: seq<Entry>, whole: Output, done: seq<byte>)
    requires qs != [] && QueriesOk(qs) && Continued(whole, done, PrintQueries(pos, size, qs, tab))
    ensures var q := PrintQuery(pos, size, qs[0], tab);
      if q.Failed? then whole.Failed?
      else Continued(whole, done + q.bytes, PrintQueries(pos + |q.bytes|, size - (|q.bytes| - 4), qs[1..], q.tab))
  {
    hide PrintQuery;
    var q, o := PrintQuery(pos, size, qs[0], tab), PrintQueries(pos, size, qs, tab);
    if o.Output? { assert done + o.bytes == done + q.bytes + o.bytes[|q.bytes|..]; }
  }

  lemma RRsStep(pos: nat, size: nat, rs: seq<RR>, tab: seq<Entry>, whole: Output, done: seq<byte>)
    requires rs != [] && RRsOk(rs) && Continued(whole, done, PrintRRs(pos, size, rs, tab))
    ensures var r := PrintRR(pos, size, rs[0], tab);
      if r.Failed? then whole.Failed?
      else Continued(whole, done + r.bytes, PrintRRs(pos + |r.bytes|, size - |r.bytes|, rs[1..], r.tab))
  {
    hide PrintRR;
    var r, o := PrintRR(pos, size, rs[0], tab), PrintRRs(pos, size, rs, tab);
    if o.Output? { assert done + o.bytes == done + r.bytes + o.bytes[|r.bytes|..]; }
  }

  // Fields written two bytes ahead leave what was printed alone.
  lemma GapLeft(b0: seq<byte>, b1: seq<byte>, pos: nat, fields: seq<byte>)
    requires pos + 2 + |fields| <= |b0| == |b1| && b1[..pos + 2 + |fields|] == b0[..pos + 2] + fields
    ensures var p := pos + 2 + |fields|; b1[..pos] == b0[..pos] && b1[pos + 2..p] == fields && b1[..p] == b0[..pos] + b1[pos..p]
  {
    var p := pos + 2 + |fields|;
    assert b1[..pos] == b1[..p][..pos] && b1[pos + 2..p] == b1[..p][pos + 2..];
  }

  lemma GapFilled(out: seq<byte>, b1: seq<byte>, b2: seq<byte>, b3: seq<byte>, pos: nat, fields: seq<byte>, bytes: seq<byte>, rdlen: seq<byte>)
    requires |rdlen| == 2 && pos + 2 + |fields| + |bytes| <= |b1| == |b2| == |b3| && |out| == pos
    requires b1[..pos] == out && b1[pos + 2..pos + 2 + |fields|] == fields
    requires b2[..pos + 2 + |fields| + |bytes|] == b1[..pos + 2 + |fields|] + bytes
    requires b3[..pos + 2] == b2[..pos] + rdlen && b3[pos + 2..] == b2[pos + 2..]
    ensures b3[..pos + 2 + |fields| + |bytes|] == (out + (rdlen + fields)) + bytes == out + (rdlen + fields + bytes)
  {
    var p, end := pos + 2 + |fields|, pos + 2 + |fields| + |bytes|;
    assert b2[..pos] == b2[..end][..pos] == out;
    assert b2[pos + 2..end] == b2[..end][pos + 2..] == fields + bytes;
    assert b3[pos + 2..end] == b3[pos + 2..][..end - pos - 2] == b2[pos + 2..end];
    assert b3[..end] == b3[..pos + 2] + b3[pos + 2..end] == (out + rdlen) + (fields + bytes);
    Regroup(out, rdlen, fields, bytes);
    Regroup(out, rdlen, fields + bytes, []);
    Regroup(out, rdlen + fields, bytes, []);
  }

  lemma PrintNameTab(out: seq<byte>, size: nat, name: Name, tab: seq<Entry>)
    requires TabAt(out, tab)
    ensures var o := PrintName(|out|, size, name, tab); o.Output? ==> TabAt(out + o.bytes, o.tab)
  {
    hide Wire, Find;
    var o := PrintName(|out|, size, name, tab);
    if o.Output? {
      TabAtPrefix(out, o.bytes, tab);
      AtEnd(out, o.bytes);
    }
  }

  lemma Regroup3(a: seq<byte>, b: seq<byte>, c: seq<byte>, d: seq<byte>)
    ensures ((a + b) + c) + d == a + (b + c + d)
  {}

  lemma Regroup(a: seq<byte>, b: seq<byte>, c: seq<byte>, d: seq<byte>)
    ensures b + (c + d) == (b + c) + d && (a + b) + c == a + (b + c)
  {}
}
