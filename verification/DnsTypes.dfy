/** DNS data as the library passes it around (dns.h), and the comparison of names. */
module DnsTypes {
  import opened Bytes

  type Name = seq<byte>

  const TYPE_A := 1
  const TYPE_NS := 2
  const TYPE_CNAME := 5
  const TYPE_PTR := 12
  const TYPE_AAAA := 28
  const TYPE_SRV := 33

  const DOT: byte := 46

  datatype Query = Query(name: Name, qtype: nat, qclass: nat)

  // The rdata union; Raw is the data pointer kept for types the library does not know.
  datatype RData =
    | Address(ip: seq<byte>)                                       // A and AAAA
    | Target(name: Name)                                           // CNAME, NS and PTR
    | Service(prio: nat, weight: nat, port: nat, target: Name)     // SRV
    | Raw(data: seq<byte>)

  datatype RR = RR(name: Name, rtype: nat, rclass: nat, ttl: nat, rdlength: nat, rdata: RData)

  // The section counts of the header are the lengths of the sections.
  datatype Packet = Packet(id: nat, flags: nat, q: seq<Query>, ans: seq<RR>, ns: seq<RR>, arr: seq<RR>)

  function Rcode(flags: nat): nat { flags % 16 }

  function Lower(c: byte): byte {
    if 65 <= c <= 90 then c + 32 else c
  }

  function LowerName(n: Name): Name {
    seq(|n|, i requires 0 <= i < |n| => Lower(n[i]))
  }

  // pj_stricmp(a, b) == 0: equal lengths, then strnicmp, which stops at a common NUL.
  predicate SameName(a: Name, b: Name) {
    |a| == |b| && SameText(a, b)
  }

  predicate SameText(a: Name, b: Name)
    requires |a| == |b|
  {
    a == [] || (Lower(a[0]) == Lower(b[0]) && (a[0] == 0 || SameText(a[1..], b[1..])))
  }

  lemma {:induction false} SameTextReflexive(a: Name)
    ensures SameText(a, a)
  {
    if a != [] { SameTextReflexive(a[1..]); }
  }

  lemma {:induction false} SameTextSymmetric(a: Name, b: Name)
    requires |a| == |b|
    ensures SameText(a, b) <==> SameText(b, a)
    decreases |a|
  {
    if a != [] { SameTextSymmetric(a[1..], b[1..]); }
  }

  lemma SameNameSymmetric(a: Name, b: Name)
    ensures SameName(a, b) <==> SameName(b, a)
  {
    if |a| == |b| { SameTextSymmetric(a, b); }
  }

  lemma {:induction false} SameTextTransitive(a: Name, b: Name, c: Name)
    requires |a| == |b| == |c| && SameText(a, b) && SameText(b, c)
    ensures SameText(a, c)
    decreases |a|
  {
    if a != [] && a[0] != 0 { SameTextTransitive(a[1..], b[1..], c[1..]); }
  }

  lemma SameNameTransitive(a: Name, b: Name, c: Name)
    requires SameName(a, b) && SameName(b, c)
    ensures SameName(a, c)
  {
    SameTextTransitive(a, b, c);
  }

  // Names without NUL bytes are the same exactly when they are equal in lower case.
  lemma {:induction false} SameNameIsCaseless(a: Name, b: Name)
    requires 0 !in a
    ensures SameName(a, b) <==> LowerName(a) == LowerName(b)
  {
    if a != [] && |a| == |b| {
      SameNameIsCaseless(a[1..], b[1..]);
      assert LowerName(a)[0] == Lower(a[0]) && LowerName(a)[1..] == LowerName(a[1..]);
      assert LowerName(b)[0] == Lower(b[0]) && LowerName(b)[1..] == LowerName(b[1..]);
      if Lower(a[0]) == Lower(b[0]) && LowerName(a[1..]) == LowerName(b[1..]) {
        assert LowerName(a) == [Lower(a[0])] + LowerName(a[1..]) == LowerName(b);
      }
    } else {
      assert |LowerName(a)| == |a| && |LowerName(b)| == |b|;
      assert |a| == |b| ==> LowerName(a) == LowerName(b) == [];
    }
  }

  const MAX_HOSTNAME := 254

  // Key of a pending query or a cached response: the type and the lower-case name in a zeroed buffer.
  datatype Key = Key(qtype: nat, name: Name)

  function InitResKey(qtype: nat, name: Name): (k: Key)
    ensures |k.name| == MAX_HOSTNAME
  {
    var len := if |name| >= MAX_HOSTNAME then MAX_HOSTNAME - 1 else |name|;
    Key(qtype % 0x10000, LowerName(name[..len]) + seq(MAX_HOSTNAME - len, _ => 0))
  }

  // The zero that ends the shorter name tells the keys apart.
  lemma KeyLengths(t1: nat, n1: Name, t2: nat, n2: Name)
    requires |n1| < |n2| < MAX_HOSTNAME && 0 !in n2
    ensures InitResKey(t1, n1) != InitResKey(t2, n2)
  {
    assert InitResKey(t1, n1).name[|n1|] == 0;
    assert InitResKey(t2, n2).name[|n1|] == Lower(n2[|n1|]) != 0;
  }

  lemma KeyText(t: nat, n: Name)
    requires |n| < MAX_HOSTNAME
    ensures InitResKey(t, n).name[..|n|] == LowerName(n) && InitResKey(t, n).name[|n|..] == seq(MAX_HOSTNAME - |n|, _ => 0)
  {
    assert n[..|n|] == n;
  }

  // Requests that pass the length check and have no NUL in the name share a key exactly when they ask
  // for the same type and the same name up to case.
  lemma KeyIdentifiesResource(t1: nat, n1: Name, t2: nat, n2: Name)
    requires t1 < 0x10000 && t2 < 0x10000 && |n1| < MAX_HOSTNAME && |n2| < MAX_HOSTNAME && 0 !in n1 && 0 !in n2
    ensures InitResKey(t1, n1) == InitResKey(t2, n2) <==> t1 == t2 && SameName(n1, n2)
  {
    if |n1| < |n2| {
      KeyLengths(t1, n1, t2, n2);
    } else if |n2| < |n1| {
      KeyLengths(t2, n2, t1, n1);
    } else {
      SameNameIsCaseless(n1, n2);
      KeyText(t1, n1);
      KeyText(t2, n2);
      var k1, k2 := InitResKey(t1, n1).name, InitResKey(t2, n2).name;
      assert k1 == k1[..|n1|] + k1[|n1|..] && k2 == k2[..|n1|] + k2[|n1|..];
    }
  }
}
