/** Bytes, and byte strings standing somewhere in a longer one. */
module Bytes {

  type byte = x: int | 0 <= x < 256

  function ToByte(k: nat): byte { if k < 256 then k else k % 256 }

  // bytes stand in pkt at pos.
  ghost predicate At(pkt: seq<byte>, pos: nat, bytes: seq<byte>) {
    pos + |bytes| <= |pkt| && forall i {:trigger bytes[i]} :: 0 <= i < |bytes| ==> pkt[pos + i] == bytes[i]
  }

  lemma AtSplit(pkt: seq<byte>, pos: nat, a: seq<byte>, b: seq<byte>)
    requires At(pkt, pos, a + b)
    ensures At(pkt, pos, a) && At(pkt, pos + |a|, b)
  {
    forall i | 0 <= i < |a| ensures pkt[pos + i] == a[i] { assert (a + b)[i] == a[i]; }
    forall i | 0 <= i < |b| ensures pkt[pos + |a| + i] == b[i] { assert (a + b)[|a| + i] == b[i]; }
  }

  lemma AtJoin(pkt: seq<byte>, pos: nat, a: seq<byte>, b: seq<byte>)
    requires At(pkt, pos, a) && At(pkt, pos + |a|, b)
    ensures At(pkt, pos, a + b)
  {
    forall i | 0 <= i < |a + b| ensures pkt[pos + i] == (a + b)[i] {
      if i >= |a| { assert pkt[pos + |a| + (i - |a|)] == b[i - |a|]; }
    }
  }

  lemma AtSlice(pkt: seq<byte>, p: nat, q: nat)
    requires p <= q <= |pkt|
    ensures At(pkt, p, pkt[p..q])
  {}

  lemma AtText(pkt: seq<byte>, pos: nat, a: seq<byte>)
    requires At(pkt, pos, a)
    ensures pkt[pos..pos + |a|] == a
  {}

  lemma AtPrefix(out: seq<byte>, more: seq<byte>, pos: nat, bytes: seq<byte>)
    requires At(out, pos, bytes)
    ensures At(out + more, pos, bytes)
  {}

  lemma AtEnd(out: seq<byte>, bytes: seq<byte>)
    ensures At(out + bytes, |out|, bytes)
  {}

  lemma AtEnds(pkt: seq<byte>, pos: nat, bytes: seq<byte>)
    requires At(pkt, pos, bytes)
    ensures pos + |bytes| <= |pkt|
  {}

  lemma AtSelf(pkt: seq<byte>)
    ensures At(pkt, 0, pkt)
  {}

  // Copy bytes into a buffer.
  method Write(buf: array<byte>, at: nat, bytes: seq<byte>)
    requires at + |bytes| <= buf.Length
    modifies buf
    ensures buf[..at + |bytes|] == old(buf[..at]) + bytes
    ensures buf[at + |bytes|..] == old(buf[at + |bytes|..])
  {
    forall i | 0 <= i < |bytes| {
      buf[at + i] := bytes[i];
    }
  }

  // The pieces of a string, put together.
  function Join<T>(pieces: seq<seq<T>>): seq<T> {
    if pieces == [] then [] else Join(pieces[..|pieces| - 1]) + pieces[|pieces| - 1]
  }
}
