/** Making a query packet (pj_dns_make_query in dns.c). */
module DnsQuery {
  import opened Bytes
  import opened DnsTypes
  import opened DnsName
  import opened DnsParser
  import opened DnsPrinter
  import opened DnsRoundTrip

  datatype Result = EInval | EQueryTooSmall | Made(len: nat)

  const SET_RD := 0x100

  // The request is for one question, with recursion desired.
  function Request(id: nat, qtype: nat, name: Name): (p: Packet)
    requires id < 0x10000 && qtype < 0x10000
    ensures PacketOk(p)
    ensures p.id == id && p.flags == 0x0100 && p.q == [Query(name, qtype, 1)] && p.ans == p.ns == p.arr == []
  {
    Packet(id, SET_RD, [Query(name, qtype, 1)], [], [], [])
  }

  function QueryBytes(id: nat, qtype: nat, name: Name): seq<byte>
    requires id < 0x10000 && qtype < 0x10000
  {
    Header(Request(id, qtype, name)) + (Full(name) + (W16(qtype) + W16(1)))
  }

  method WriteLabels(packet: array<byte>, at: nat, name: Name) returns (p: nat)
    requires at + |Wire(name)| <= packet.Length
    modifies packet
    ensures p == at + |Wire(name)| && packet[..p] == old(packet[..at]) + Wire(name)
  {
    hide Wire;
    var start := 0;
    p := at;
    ghost var done: seq<byte> := [];
    assert name[0..] == name && Wire(name) == done + Wire(name[start..]);
    while start != |name|
      invariant start <= |name| && |done| == p - at >= 0 && Wire(name) == done + Wire(name[start..])
      invariant packet[..p] == old(packet[..at]) + done
      decreases |name| - start
    {
      var end := EndOfLabel(name, start);
      WireStep(name, start, end);
      ghost var lab := [ToByte(end - start)] + name[start..end];
      Write(packet, p, [ToByte(end - start)] + name[start..end]);
      p := p + 1 + (end - start);
      start := if end != |name| then end + 1 else end;
      Regroup(old(packet[..at]), done, lab, Wire(name[start..]));
      done := done + lab;
    }
    assert Wire(name) == done by { WireSize(name[start..]); }
  }

  // The size that is checked for.
  function Checked(name: Name): nat { HEADER + |name| + 4 }

  // One or two bytes more are written than checked for: one for a name that is empty or ends in a dot.
  lemma QueryLength(id: nat, qtype: nat, name: Name)
    requires id < 0x10000 && qtype < 0x10000
    ensures |QueryBytes(id, qtype, name)| == Checked(name) + if name == [] || name[|name| - 1] == DOT then 1 else 2
  {
    WireSize(name);
    hide Wire, W16;
  }

  // For instance a query for "a" passes the check with 17 bytes and takes 19.
  lemma ShortBufferIsOverrun(id: nat, qtype: nat)
    requires id < 0x10000 && qtype < 0x10000
    ensures var n: Name := [97]; Checked(n) == 17 && |QueryBytes(id, qtype, n)| == 19
  {
    hide QueryBytes;
    QueryLength(id, qtype, [97]);
  }

  // The buffer has size bytes, and what is written fits it.
  method MakeQuery(packet: array<byte>, size: nat, id: nat, qtype: nat, name: Name) returns (r: Result)
    requires id < 0x10000 && qtype < 0x10000 && size <= packet.Length
    requires qtype != 0 && size >= Checked(name) ==> |QueryBytes(id, qtype, name)| <= packet.Length
    modifies packet
    ensures r.EInval? <==> qtype == 0
    ensures r.EQueryTooSmall? <==> qtype != 0 && size < Checked(name)
    ensures r.Made? ==> r.len == |QueryBytes(id, qtype, name)| <= packet.Length && packet[..r.len] == QueryBytes(id, qtype, name)
  {
    hide Wire, W16, PacketOk;
    if qtype == 0 {
      return EInval;
    }
    if size < HEADER + |name| + 4 {
      return EQueryTooSmall;
    }
    ghost var head := Header(Request(id, qtype, name));
    Write(packet, 0, W16(id) + W16(SET_RD) + W16(1) + W16(0) + W16(0) + W16(0));
    assert packet[..HEADER] == head;
    assert |QueryBytes(id, qtype, name)| == HEADER + |Wire(name)| + 5;
    var p := WriteLabels(packet, HEADER, name);
    var tail := W16(qtype) + W16(1);
    Write(packet, p, [0] + tail);
    Assembled(head, Wire(name), tail);
    r := Made(p + 5);
  }

  lemma Assembled(head: seq<byte>, labels: seq<byte>, tail: seq<byte>)
    ensures (head + labels) + ([0] + tail) == head + ((labels + [0]) + tail)
  {}

  // A query packet comes back from the parser exactly when its name is well formed.
  lemma QueryRoundTrip(id: nat, qtype: nat, name: Name)
    requires id < 0x10000 && qtype < 0x10000
    ensures ComesBack(QueryBytes(id, qtype, name), Request(id, qtype, name)) <==> WellFormed(name)
  {
    hide At, W16, R16, Header, Wire, ReadName, WellFormed;
    var pkt, p := QueryBytes(id, qtype, name), Request(id, qtype, name);
    AtSelf(pkt);
    AtSplit(pkt, 0, Header(p), Full(name) + (W16(qtype) + W16(1)));
    AtSplit(pkt, HEADER, Full(name), W16(qtype) + W16(1));
    AtSplit(pkt, HEADER + |Full(name)|, W16(qtype), W16(1));
    HeaderAt(pkt, p);
    ReadFull(pkt, HEADER, name);
    R16At(pkt, HEADER + |Full(name)|, qtype);
    R16At(pkt, HEADER + |Full(name)| + 2, 1);
    var q := ParseQuery(pkt, HEADER);
    SameQueriesStep(pkt, HEADER, p.q, q);
  }

  // A query for "a." asks for "a".
  lemma TrailingDotQueryIsLost(id: nat, qtype: nat)
    requires id < 0x10000 && qtype < 0x10000
    ensures var n: Name := [97, DOT]; !ComesBack(QueryBytes(id, qtype, n), Request(id, qtype, n))
  {
    hide ComesBack, QueryBytes, Request, WellFormed;
    TrailingDotIsLost();
    QueryRoundTrip(id, qtype, [97, DOT]);
  }
}
