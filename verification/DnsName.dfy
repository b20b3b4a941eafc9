/** Domain names on the wire (section 4.1.4 of RFC 1035): labels, compression pointers, and the two
    passes in which dns.c reads a name. */
module DnsName {
  import opened Bytes
  import opened DnsTypes

  const MAX_RECURSION := 5

  datatype NameResult = BadName | GoodName(name: Name, parsed: nat)

  // The name that starts at pos; parsed is the number of bytes it takes there.
  function ReadName(pkt: seq<byte>, pos: nat, depth: nat): (r: NameResult)
    ensures r.GoodName? ==> 0 < r.parsed && pos + r.parsed <= |pkt|
    decreases if depth <= MAX_RECURSION then MAX_RECURSION + 1 - depth else 0, |pkt| + 1
  {
    if depth > MAX_RECURSION || pos >= |pkt| then BadName else ReadLabels(pkt, pos, depth)
  }

  function ReadLabels(pkt: seq<byte>, p: nat, depth: nat): (r: NameResult)
    requires p < |pkt| && depth <= MAX_RECURSION
    ensures r.GoodName? ==> 0 < r.parsed && p + r.parsed <= |pkt|
    decreases MAX_RECURSION + 1 - depth, |pkt| - p
  {
    if pkt[p] == 0 then GoodName([], 1)
    else if pkt[p] >= 0xC0 then
      if p + 1 >= |pkt| then BadName
      else
        var offset := Offset(pkt[p], pkt[p + 1]);
        if offset >= |pkt| then BadName
        else
          var r := ReadName(pkt, offset, depth + 1);
          if r.BadName? then BadName else GoodName(r.name, 2)
    else
      var len := pkt[p];
      if p + 1 + len + 1 > |pkt| then BadName
      else
        var rest := ReadLabels(pkt, p + len + 1, depth);
        if rest.BadName? then BadName
        else GoodName(Label(pkt, p) + rest.name, len + 1 + rest.parsed)
  }

  // The 14 bits after the two pointer bits.
  function Offset(hi: int, lo: int): nat
    requires 0xC0 <= hi < 256 && 0 <= lo < 256
  {
    (hi - 0xC0) * 256 + lo
  }

  // The text of the label at p, with the dot that separates it from a following label.
  function Label(pkt: seq<byte>, p: nat): Name
    requires p < |pkt| && p + 1 + pkt[p] < |pkt|
  {
    pkt[p + 1..p + 1 + pkt[p]] + if pkt[p + 1 + pkt[p]] != 0 then [DOT] else []
  }

  // First pass: only the length. Terminates on pointer cycles because depth grows.
  method GetNameLen(pkt: seq<byte>, start: nat, depth: nat) returns (ok: bool, parsedLen: nat, nameLen: nat)
    ensures ok <==> ReadName(pkt, start, depth).GoodName?
    ensures ok ==> GoodName(ReadName(pkt, start, depth).name, parsedLen) == ReadName(pkt, start, depth)
    ensures ok ==> nameLen == |ReadName(pkt, start, depth).name|
    decreases if depth <= MAX_RECURSION then MAX_RECURSION + 1 - depth else 0
  {
    ok, parsedLen, nameLen := false, 0, 0;
    if depth > MAX_RECURSION || start >= |pkt| {
      return;
    }
    var p := start;
    while p < |pkt| && pkt[p] != 0
      invariant start <= p < |pkt| && parsedLen == p - start
      invariant var whole, rest := ReadLabels(pkt, start, depth), ReadLabels(pkt, p, depth);
        && (whole.GoodName? <==> rest.GoodName?)
        && (whole.GoodName? ==> whole.parsed == parsedLen + rest.parsed && |whole.name| == nameLen + |rest.name|)
      decreases |pkt| - p
    {
      if pkt[p] >= 0xC0 {
        if p + 1 >= |pkt| {
          return;
        }
        var offset := Offset(pkt[p], pkt[p + 1]);
        if offset >= |pkt| {
          return;
        }
        var good, _, ptrLen := GetNameLen(pkt, offset, depth + 1);
        if !good {
          return;
        }
        return true, parsedLen + 2, nameLen + ptrLen;
      }
      var labelLen := pkt[p];
      if p + 1 + labelLen + 1 > |pkt| {
        return;
      }
      p := p + labelLen + 1;
      parsedLen := parsedLen + labelLen + 1;
      nameLen := nameLen + labelLen + if pkt[p] != 0 then 1 else 0;
    }
    ok, parsedLen := true, parsedLen + 1;
  }

  // Second pass: appends the text to name.
  method GetName(pkt: seq<byte>, start: nat, depth: nat, name: Name) returns (ok: bool, result: Name)
    ensures ok <==> ReadName(pkt, start, depth).GoodName?
    ensures ok ==> result == name + ReadName(pkt, start, depth).name
    decreases if depth <= MAX_RECURSION then MAX_RECURSION + 1 - depth else 0
  {
    ok, result := false, name;
    if depth > MAX_RECURSION || start >= |pkt| {
      return;
    }
    var p := start;
    while p < |pkt| && pkt[p] != 0
      invariant start <= p < |pkt|
      invariant var whole, rest := ReadLabels(pkt, start, depth), ReadLabels(pkt, p, depth);
        && (whole.GoodName? <==> rest.GoodName?)
        && (whole.GoodName? ==> name + whole.name == result + rest.name)
      decreases |pkt| - p
    {
      if pkt[p] >= 0xC0 {
        if p + 1 >= |pkt| {
          return;
        }
        var offset := Offset(pkt[p], pkt[p + 1]);
        if offset >= |pkt| {
          return;
        }
        ok, result := GetName(pkt, offset, depth + 1, result);
        return;
      }
      var labelLen := pkt[p];
      if p + 1 + labelLen + 1 > |pkt| {
        return;
      }
      ghost var before := result;
      result := result + pkt[p + 1..p + 1 + labelLen];
      if pkt[p + labelLen + 1] != 0 {
        result := result + [DOT];
      }
      assert result == before + Label(pkt, p);
      p := p + labelLen + 1;
    }
    ok := true;
  }

  // ---------------------------------------------------------------- printing names

  // Length of the first label of a dotted name.
  function FirstDot(n: Name): (k: nat)
    ensures k <= |n| && (k < |n| ==> n[k] == DOT) && DOT !in n[..k]
  {
    if n == [] || n[0] == DOT then 0
    else
      var k := FirstDot(n[1..]);
      assert n[..k + 1] == [n[0]] + n[1..][..k];
      k + 1
  }

  // What follows the first label and its dot.
  function AfterDot(n: Name): (r: Name)
    ensures n != [] ==> |r| < |n|
  {
    if FirstDot(n) < |n| then n[FirstDot(n) + 1..] else []
  }

  // The labels as the printing loops write them, without the terminating zero. A label's length is
  // cast to a byte.
  function Wire(n: Name): seq<byte>
    decreases |n|
  {
    if n == [] then [] else [ToByte(FirstDot(n))] + n[..FirstDot(n)] + Wire(AfterDot(n))
  }

  predicate LabelsOk(n: Name)
    requires n != []
    decreases |n|
  {
    && 1 <= FirstDot(n) < 0xC0
    && (FirstDot(n) == |n| || (AfterDot(n) != [] && LabelsOk(AfterDot(n))))
  }

  // No empty label, no trailing dot, no label whose length byte reads as a pointer.
  predicate WellFormed(n: Name) { n == [] || LabelsOk(n) }

  lemma {:induction false} WireSize(n: Name)
    ensures n == [] ==> |Wire(n)| == 0
    ensures n != [] ==> |Wire(n)| == |n| + if n[|n| - 1] == DOT then 0 else 1
    decreases |n|
  {
    if n != [] {
      WireSize(AfterDot(n));
      assert |Wire(n)| == 1 + FirstDot(n) + |Wire(AfterDot(n))|;
      hide Wire, FirstDot, AfterDot;
      AfterDotEnds(n);
    }
  }

  // The rest of a name ends as the name does.
  lemma AfterDotEnds(n: Name)
    requires n != []
    ensures |AfterDot(n)| == if FirstDot(n) < |n| then |n| - FirstDot(n) - 1 else 0
    ensures FirstDot(n) == |n| ==> n[|n| - 1] != DOT
    ensures FirstDot(n) == |n| - 1 ==> n[|n| - 1] == DOT
    ensures AfterDot(n) != [] ==> AfterDot(n)[|AfterDot(n)| - 1] == n[|n| - 1]
  {
    hide FirstDot;
    if FirstDot(n) == |n| { assert n[..|n|] == n && n[|n| - 1] in n; }
  }

  // A printed name with its terminating zero.
  function Full(n: Name): seq<byte> { Wire(n) + [0] }

  lemma FullSplit(n: Name)
    requires n != []
    ensures Full(n) == [ToByte(FirstDot(n))] + (n[..FirstDot(n)] + Full(AfterDot(n)))
  {
    Associates([ToByte(FirstDot(n))], n[..FirstDot(n)], Wire(AfterDot(n)), [0]);
  }

  lemma Associates(a: seq<byte>, b: seq<byte>, c: seq<byte>, d: seq<byte>)
    ensures (a + b + c) + d == a + (b + (c + d))
  {}

  // A name read from a packet has its first dot, or its end, within 191 bytes.
  lemma {:induction false} ReadFirstDot(pkt: seq<byte>, p: nat, depth: nat)
    requires p < |pkt| && depth <= MAX_RECURSION && ReadLabels(pkt, p, depth).GoodName?
    ensures FirstDot(ReadLabels(pkt, p, depth).name) < 0xC0
    decreases MAX_RECURSION + 1 - depth, |pkt| - p
  {
    if pkt[p] == 0 {
    } else if pkt[p] >= 0xC0 {
      ReadFirstDot(pkt, Offset(pkt[p], pkt[p + 1]), depth + 1);
    } else {
      var name, len := ReadLabels(pkt, p, depth).name, pkt[p];
      var k := FirstDot(name);
      if k > len {
        assert name[len] in name[..k];
      }
    }
  }

  // One printed label of acceptable length, read back.
  lemma ReadLabelStep(pkt: seq<byte>, pos: nat, depth: nat, lab: Name, tail: seq<byte>)
    requires depth <= MAX_RECURSION && 1 <= |lab| < 0xC0 && tail != [] && At(pkt, pos, [|lab|] + (lab + tail))
    ensures var p := pos + |lab| + 1; var r := ReadLabels(pkt, pos, depth);
      && p < |pkt| && At(pkt, p, tail)
      && (tail[0] == 0 ==> r == GoodName(lab, |lab| + 2))
      && (tail[0] != 0 ==>
            var r1 := ReadLabels(pkt, p, depth);
            r == if r1.BadName? then BadName else GoodName(lab + [DOT] + r1.name, |lab| + 1 + r1.parsed))
  {
    AtSplit(pkt, pos, [|lab|], lab + tail);
    AtSplit(pkt, pos + 1, lab, tail);
    AtText(pkt, pos + 1, lab);
    assert [|lab|][0] == |lab|;
    assert tail[0] == pkt[pos + |lab| + 1];
    assert Label(pkt, pos) == if tail[0] != 0 then lab + [DOT] else lab;
    assert lab + [] == lab;
  }

  lemma JoinedNames(a: Name, b: Name, n: Name)
    requires |a| < |n| && n[..|a|] == a && n[|a|] == DOT
    ensures a + [DOT] + b == n <==> b == n[|a| + 1..]
  {
    assert n == a + [DOT] + n[|a| + 1..];
    assert (a + [DOT] + b)[|a| + 1..] == b;
  }

  // Size on the wire of a well-formed name.
  function NameBytes(n: Name): nat { if n == [] then 1 else |n| + 2 }

  lemma {:induction false} FullSize(n: Name)
    requires WellFormed(n)
    ensures |Full(n)| == NameBytes(n)
    decreases |n|
  {
    if n != [] {
      FullSplit(n);
      FullSize(AfterDot(n));
    }
  }

  // The read at pos gives n back, exactly when it is well formed, and takes its size on the wire.
  ghost predicate ReadsBack(pkt: seq<byte>, pos: nat, depth: nat, n: Name)
    requires pos < |pkt| && depth <= MAX_RECURSION
  {
    var r := ReadLabels(pkt, pos, depth);
    && (r.GoodName? && r.name == n <==> WellFormed(n))
    && (WellFormed(n) ==> r.parsed == NameBytes(n))
  }

  lemma BadFirstLabel(pkt: seq<byte>, pos: nat, depth: nat, n: Name)
    requires depth <= MAX_RECURSION && At(pkt, pos, Full(n)) && n != [] && !(1 <= FirstDot(n) < 0xC0)
    ensures ReadsBack(pkt, pos, depth, n)
  {
    FullSplit(n);
    assert FirstDot(n) == 0 ==> Full(n)[0] == 0;
    if ReadLabels(pkt, pos, depth).GoodName? { ReadFirstDot(pkt, pos, depth); }
  }

  // The printed form of a name whose first label is short enough.
  lemma AtFull(pkt: seq<byte>, pos: nat, n: Name)
    requires At(pkt, pos, Full(n)) && 1 <= FirstDot(n) < 0xC0
    ensures At(pkt, pos, [FirstDot(n)] + (n[..FirstDot(n)] + Full(AfterDot(n))))
  {
    FullSplit(n);
  }

  lemma AtTail(pkt: seq<byte>, pos: nat, lab: Name, tail: seq<byte>)
    requires |lab| < 256 && At(pkt, pos, [|lab|] + (lab + tail))
    ensures At(pkt, pos + |lab| + 1, tail)
  {
    AtSplit(pkt, pos, [|lab|], lab + tail);
    AtSplit(pkt, pos + 1, lab, tail);
  }

  lemma FullHead(n: Name)
    ensures Full(n) != []
    ensures n == [] ==> Full(n) == [0]
    ensures n != [] && LabelsOk(n) ==> Full(n)[0] != 0
  {
    if n != [] { FullSplit(n); }
  }

  // The step from the labels after the first one to the whole name.
  lemma ReadFirstLabel(pkt: seq<byte>, pos: nat, depth: nat, n: Name, rest: Name, tail: seq<byte>)
    requires depth <= MAX_RECURSION && 1 <= FirstDot(n) < 0xC0 && rest == AfterDot(n)
    requires tail != [] && At(pkt, pos, [FirstDot(n)] + (n[..FirstDot(n)] + tail))
    requires rest == [] ==> tail == [0]
    requires rest != [] && LabelsOk(rest) ==> tail[0] != 0
    requires pos + FirstDot(n) + 1 < |pkt| && ReadsBack(pkt, pos + FirstDot(n) + 1, depth, rest)
    ensures ReadsBack(pkt, pos, depth, n)
  {
    var k := FirstDot(n);
    ReadLabelStep(pkt, pos, depth, n[..k], tail);
    if k == |n| {
      assert n[..k] == n;
    } else {
      var r1 := ReadLabels(pkt, pos + k + 1, depth);
      if tail[0] != 0 && r1.GoodName? { JoinedNames(n[..k], r1.name, n); }
    }
  }

  lemma RootReadsBack(pkt: seq<byte>, pos: nat, depth: nat)
    requires depth <= MAX_RECURSION && At(pkt, pos, Full([]))
    ensures pos < |pkt| && ReadsBack(pkt, pos, depth, [])
  {
    assert Full([])[0] == 0;
  }

  // Reading back what the printing loop wrote gives the name exactly when it is well formed.
  lemma {:induction false} ReadPrinted(pkt: seq<byte>, pos: nat, depth: nat, n: Name)
    requires depth <= MAX_RECURSION && At(pkt, pos, Full(n))
    ensures ReadsBack(pkt, pos, depth, n)
    decreases |n|
  {
    hide At, ReadsBack, Full, LabelsOk;
    AtEnds(pkt, pos, Full(n));
    FullHead(n);
    if n == [] {
      RootReadsBack(pkt, pos, depth);
    } else if !(1 <= FirstDot(n) < 0xC0) {
      BadFirstLabel(pkt, pos, depth, n);
    } else {
      var k, rest, tail := FirstDot(n), AfterDot(n), Full(AfterDot(n));
      AtFull(pkt, pos, n);
      FullHead(rest);
      AtTail(pkt, pos, n[..k], tail);
      AtEnds(pkt, pos + k + 1, tail);
      ReadPrinted(pkt, pos + k + 1, depth, rest);
      ReadFirstLabel(pkt, pos, depth, n, rest, tail);
    }
  }

  // For instance "a." is printed as "a" and read back as that.
  lemma TrailingDotIsLost()
    ensures var n: Name := [97, DOT]; ReadName(Full(n), 0, 0) != GoodName(n, |Full(n)|) && !WellFormed(n)
  {
    var n: Name := [97, DOT];
    assert n[1..] == [DOT] && FirstDot([DOT]) == 0;
    assert FirstDot(n) == 1 && AfterDot(n) == [];
    assert !WellFormed(n);
    hide WellFormed, Full;
    AtSelf(Full(n));
    ReadPrinted(Full(n), 0, 0, n);
  }
}
