/** Parsing a DNS packet (dns.c; sections 4.1.1 to 4.1.3 of RFC 1035). */
module DnsParser {
  import opened Bytes
  import opened DnsTypes
  import opened DnsName

  const MAX_SECTION := 256
  const HEADER := 12

  datatype Error = Invalid | InSize | InNamePtr | InClass | TooMany

  datatype Parsed<T> = Fail(error: Error) | Done(value: T, len: nat)

  function R16(pkt: seq<byte>, p: nat): nat
    requires p + 2 <= |pkt|
  {
    (pkt[p] as int) * 256 + pkt[p + 1]
  }

  function R32(pkt: seq<byte>, p: nat): nat
    requires p + 4 <= |pkt|
  {
    R16(pkt, p) * 65536 + R16(pkt, p + 2)
  }

  predicate KnownType(t: nat) {
    t == TYPE_A || t == TYPE_AAAA || t == TYPE_CNAME || t == TYPE_NS || t == TYPE_PTR || t == TYPE_SRV
  }

  predicate NameType(t: nat) { t == TYPE_CNAME || t == TYPE_NS || t == TYPE_PTR }

  function ParseQuery(pkt: seq<byte>, start: nat): (r: Parsed<Query>)
    ensures r.Done? ==> start + r.len <= |pkt|
  {
    var n := ReadName(pkt, start, 0);
    if n.BadName? then Fail(InNamePtr)
    else
      var p := start + n.parsed;
      if p + 4 > |pkt| then Fail(InSize)
      else Done(Query(n.name, R16(pkt, p), R16(pkt, p + 2)), n.parsed + 4)
  }

  // The resource data of a record whose fixed fields end at p.
  function ParseRData(pkt: seq<byte>, p: nat, rtype: nat, rdlength: nat): (r: Parsed<RData>)
    requires p + rdlength <= |pkt|
    ensures r.Done? ==> p + r.len <= |pkt|
  {
    if rtype == TYPE_A then
      if p + 4 > |pkt| then Fail(InSize) else Done(Address(pkt[p..p + 4]), 4)
    else if rtype == TYPE_AAAA then
      if p + 16 > |pkt| then Fail(InSize) else Done(Address(pkt[p..p + 16]), 16)
    else if NameType(rtype) then
      var n := ReadName(pkt, p, 0);
      if n.BadName? then Fail(InNamePtr) else Done(Target(n.name), n.parsed)
    else if rtype == TYPE_SRV then
      if p + 6 > |pkt| then Fail(InSize)
      else
        var n := ReadName(pkt, p + 6, 0);
        if n.BadName? then Fail(InNamePtr)
        else Done(Service(R16(pkt, p), R16(pkt, p + 2), R16(pkt, p + 4), n.name), n.parsed + 6)
    else Done(Raw(pkt[p..p + rdlength]), rdlength)
  }

  function ParseRR(pkt: seq<byte>, start: nat): (r: Parsed<RR>)
    ensures r.Done? ==> start + r.len <= |pkt|
  {
    var n := ReadName(pkt, start, 0);
    if n.BadName? then Fail(InNamePtr)
    else
      var p := start + n.parsed;
      if p + 10 > |pkt| then Fail(InSize)
      else
        var rtype, rclass, ttl, rdlength := R16(pkt, p), R16(pkt, p + 2), R32(pkt, p + 4), R16(pkt, p + 8);
        if rclass != 1 && KnownType(rtype) then Fail(InClass)
        else if p + 10 + rdlength > |pkt| then Fail(InSize)
        else
          var d := ParseRData(pkt, p + 10, rtype, rdlength);
          if d.Fail? then Fail(d.error)
          else Done(RR(n.name, rtype, rclass, ttl, rdlength, d.value), n.parsed + 10 + d.len)
  }

  function ParseQueries(pkt: seq<byte>, start: nat, n: nat): (r: Parsed<seq<Query>>)
    requires start <= |pkt|
    ensures r.Done? ==> start + r.len <= |pkt| && |r.value| == n
    decreases n
  {
    if n == 0 then Done([], 0)
    else
      var q := ParseQuery(pkt, start);
      if q.Fail? then Fail(q.error)
      else
        var rest := ParseQueries(pkt, start + q.len, n - 1);
        if rest.Fail? then rest else Done([q.value] + rest.value, q.len + rest.len)
  }

  function ParseRRs(pkt: seq<byte>, start: nat, n: nat): (r: Parsed<seq<RR>>)
    requires start <= |pkt|
    ensures r.Done? ==> start + r.len <= |pkt| && |r.value| == n
    decreases n
  {
    if n == 0 then Done([], 0)
    else
      var rr := ParseRR(pkt, start);
      if rr.Fail? then Fail(rr.error)
      else
        var rest := ParseRRs(pkt, start + rr.len, n - 1);
        if rest.Fail? then rest else Done([rr.value] + rest.value, rr.len + rest.len)
  }

  function ParsePacket(pkt: seq<byte>): (r: Parsed<Packet>)
    ensures r.Done? ==> r.len <= |pkt|
  {
    if |pkt| == 0 then Fail(Invalid)
    else if |pkt| < HEADER then Fail(InSize)
    else
      var qd, an, ns, ar := R16(pkt, 4), R16(pkt, 6), R16(pkt, 8), R16(pkt, 10);
      if qd > MAX_SECTION || an > MAX_SECTION || ns > MAX_SECTION || ar > MAX_SECTION then Fail(TooMany)
      else
        var q := ParseQueries(pkt, HEADER, qd);
        if q.Fail? then Fail(q.error)
        else
          var rs := ParseRecords(pkt, HEADER + q.len, an, ns, ar);
          if rs.Fail? then Fail(rs.error)
          else Done(Packet(R16(pkt, 0), R16(pkt, 2), q.value, rs.value.0, rs.value.1, rs.value.2), HEADER + q.len + rs.len)
  }

  // ---------------------------------------------------------------- the parser

  // Both passes over one name: measure, allocate nameLen bytes, and copy exactly as many.
  method TakeName(pkt: seq<byte>, start: nat) returns (ok: bool, name: Name, partLen: nat, nameLen: int)
    ensures ok <==> ReadName(pkt, start, 0).GoodName?
    ensures ok ==> GoodName(name, partLen) == ReadName(pkt, start, 0) && nameLen == |name|
  {
    ok, partLen, nameLen := GetNameLen(pkt, start, 0);
    name := [];
    if ok {
      ok, name := GetName(pkt, start, 0, []);
    }
  }

  method TakeQuery(pkt: seq<byte>, start: nat) returns (r: Parsed<Query>)
    ensures r == ParseQuery(pkt, start)
  {
    var ok, name, partLen, _ := TakeName(pkt, start);
    if !ok {
      return Fail(InNamePtr);
    }
    var p := start + partLen;
    if p + 4 > |pkt| {
      return Fail(InSize);
    }
    var qtype := R16(pkt, p);
    p := p + 2;
    var qclass := R16(pkt, p);
    p := p + 2;
    r := Done(Query(name, qtype, qclass), p - start);
  }

  method TakeRData(pkt: seq<byte>, start: nat, rtype: nat, rdlength: nat) returns (r: Parsed<RData>)
    requires start + rdlength <= |pkt|
    ensures r == ParseRData(pkt, start, rtype, rdlength)
  {
    var p := start;
    if rtype == TYPE_A || rtype == TYPE_AAAA {
      var size := if rtype == TYPE_A then 4 else 16;
      if p + size > |pkt| {
        return Fail(InSize);
      }
      r := Done(Address(pkt[p..p + size]), size);
    } else if NameType(rtype) {
      var ok, name, partLen, _ := TakeName(pkt, p);
      r := if ok then Done(Target(name), partLen) else Fail(InNamePtr);
    } else if rtype == TYPE_SRV {
      if p + 6 > |pkt| {
        return Fail(InSize);
      }
      var prio := R16(pkt, p);
      p := p + 2;
      var weight := R16(pkt, p);
      p := p + 2;
      var port := R16(pkt, p);
      p := p + 2;
      var ok, target, partLen, _ := TakeName(pkt, p);
      if !ok {
        return Fail(InNamePtr);
      }
      p := p + partLen;
      r := Done(Service(prio, weight, port, target), p - start);
    } else {
      r := Done(Raw(pkt[p..p + rdlength]), rdlength);
    }
  }

  method TakeRR(pkt: seq<byte>, start: nat) returns (r: Parsed<RR>)
    ensures r == ParseRR(pkt, start)
  {
    var ok, name, partLen, _ := TakeName(pkt, start);
    if !ok {
      return Fail(InNamePtr);
    }
    var p := start + partLen;
    if p + 10 > |pkt| {
      return Fail(InSize);
    }
    var rtype := R16(pkt, p);
    p := p + 2;
    var rclass := R16(pkt, p);
    p := p + 2;
    if rclass != 1 && KnownType(rtype) {
      return Fail(InClass);
    }
    var ttl := R32(pkt, p);
    p := p + 4;
    var rdlength := R16(pkt, p);
    p := p + 2;
    if p + rdlength > |pkt| {
      return Fail(InSize);
    }
    var d := TakeRData(pkt, p, rtype, rdlength);
    if d.Fail? {
      return Fail(d.error);
    }
    p := p + d.len;
    r := Done(RR(name, rtype, rclass, ttl, rdlength, d.value), p - start);
  }

  // What a section loop has done after its first records.
  ghost predicate Continues<T>(whole: Parsed<seq<T>>, done: seq<T>, len: nat, rest: Parsed<seq<T>>) {
    if rest.Fail? then whole == Fail(rest.error) else whole == Done(done + rest.value, len + rest.len)
  }

  method TakeQueries(pkt: seq<byte>, start: nat, n: nat) returns (r: Parsed<seq<Query>>)
    requires start <= |pkt|
    ensures r == ParseQueries(pkt, start, n)
  {
    hide ParseQuery;
    var qs: seq<Query>, p := [], start;
    assert ParseQueries(pkt, start, n).Done? ==> qs + ParseQueries(pkt, start, n).value == ParseQueries(pkt, start, n).value;
    for i := 0 to n
      invariant start <= p <= |pkt| && |qs| == i
      invariant Continues(ParseQueries(pkt, start, n), qs, p - start, ParseQueries(pkt, p, n - i))
    {
      var q := TakeQuery(pkt, p);
      if q.Fail? {
        return Fail(q.error);
      }
      ghost var rest := ParseQueries(pkt, p + q.len, n - i - 1);
      assert rest.Done? ==> qs + ([q.value] + rest.value) == (qs + [q.value]) + rest.value;
      qs, p := qs + [q.value], p + q.len;
    }
    assert qs + [] == qs;
    r := Done(qs, p - start);
  }

  method TakeRRs(pkt: seq<byte>, start: nat, n: nat) returns (r: Parsed<seq<RR>>)
    requires start <= |pkt|
    ensures r == ParseRRs(pkt, start, n)
  {
    hide ParseRR;
    var rrs: seq<RR>, p := [], start;
    assert ParseRRs(pkt, start, n).Done? ==> rrs + ParseRRs(pkt, start, n).value == ParseRRs(pkt, start, n).value;
    for i := 0 to n
      invariant start <= p <= |pkt| && |rrs| == i
      invariant Continues(ParseRRs(pkt, start, n), rrs, p - start, ParseRRs(pkt, p, n - i))
    {
      var rr := TakeRR(pkt, p);
      if rr.Fail? {
        return Fail(rr.error);
      }
      ghost var rest := ParseRRs(pkt, p + rr.len, n - i - 1);
      assert rest.Done? ==> rrs + ([rr.value] + rest.value) == (rrs + [rr.value]) + rest.value;
      rrs, p := rrs + [rr.value], p + rr.len;
    }
    assert rrs + [] == rrs;
    r := Done(rrs, p - start);
  }

  // The record sections after the questions, in order.
  function ParseRecords(pkt: seq<byte>, start: nat, an: nat, ns: nat, ar: nat): (r: Parsed<(seq<RR>, seq<RR>, seq<RR>)>)
    requires start <= |pkt|
    ensures r.Done? ==> start + r.len <= |pkt|
  {
    var a := ParseRRs(pkt, start, an);
    if a.Fail? then Fail(a.error)
    else
      var n := ParseRRs(pkt, start + a.len, ns);
      if n.Fail? then Fail(n.error)
      else
        var x := ParseRRs(pkt, start + a.len + n.len, ar);
        if x.Fail? then Fail(x.error) else Done((a.value, n.value, x.value), a.len + n.len + x.len)
  }

  method TakeRecords(pkt: seq<byte>, begin: nat, an: nat, ns: nat, ar: nat) returns (r: Parsed<(seq<RR>, seq<RR>, seq<RR>)>)
    requires begin <= |pkt|
    ensures r == ParseRecords(pkt, begin, an, ns, ar)
  {
    hide ParseRRs;
    var start := begin;
    var a := TakeRRs(pkt, start, an);
    if a.Fail? {
      return Fail(a.error);
    }
    start := start + a.len;
    var n := TakeRRs(pkt, start, ns);
    if n.Fail? {
      return Fail(n.error);
    }
    start := start + n.len;
    var x := TakeRRs(pkt, start, ar);
    if x.Fail? {
      return Fail(x.error);
    }
    start := start + x.len;
    r := Done((a.value, n.value, x.value), start - begin);
  }

  method TakePacket(pkt: seq<byte>) returns (r: Parsed<Packet>)
    ensures r == ParsePacket(pkt)
  {
    hide ParseRecords, ParseQueries;
    if |pkt| == 0 {
      return Fail(Invalid);
    }
    if |pkt| < HEADER {
      return Fail(InSize);
    }
    var qd, an, ns, ar := R16(pkt, 4), R16(pkt, 6), R16(pkt, 8), R16(pkt, 10);
    if qd > MAX_SECTION || an > MAX_SECTION || ns > MAX_SECTION || ar > MAX_SECTION {
      return Fail(TooMany);
    }
    var start := HEADER;
    var q := TakeQueries(pkt, start, qd);
    if q.Fail? {
      return Fail(q.error);
    }
    start := start + q.len;
    var rs := TakeRecords(pkt, start, an, ns, ar);
    if rs.Fail? {
      return Fail(rs.error);
    }
    r := Done(Packet(R16(pkt, 0), R16(pkt, 2), q.value, rs.value.0, rs.value.1, rs.value.2), start + rs.len);
  }
}
