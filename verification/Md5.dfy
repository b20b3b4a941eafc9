/** MD5 (md5.c on a little-endian machine; sections 3.1 and 3.2 of RFC 1321), over any block transform. */
module Md5 {
  import opened Bytes
  import opened Digest

  const WORDS := 4
  const DIGEST_SIZE := 16

  const INIT: seq<word> := [0x67452301, 0xefcdab89, 0x98badcfe, 0x10325476]

  // ---------------------------------------------------------------- the definition

  // A 64-bit count of bits, least significant byte first.
  function CountBytes(high: word, low: word): (b: Text)
    ensures |b| == 8
  {
    seq(8, i requires 0 <= i < 8 => ByteOf(if i >= 4 then high else low, i % 4))
  }

  function Padding(n: nat): (p: Text)
    ensures |p| == 9 + PadLen(n)
  {
    [0x80] + Zeros(PadLen(n)) + CountBytes(HighBits(n), LowBits(n))
  }

  function WordsToBytes(s: seq<word>): (b: Text)
    requires |s| == WORDS
    ensures |b| == DIGEST_SIZE
  {
    seq(DIGEST_SIZE, i requires 0 <= i < DIGEST_SIZE => ByteOf(s[i / 4], i % 4))
  }

  // MD5 folds the transform over the padded message.
  ghost function Md5(t: Transform, msg: Text): (d: Text)
    requires KeepsSize(t, WORDS)
    ensures |d| == DIGEST_SIZE
  {
    FoldSize(t, WORDS, INIT, msg + Padding(|msg|));
    WordsToBytes(Fold(t, INIT, msg + Padding(|msg|)))
  }

  // Bytes as a number, the least significant first.
  function Number(b: Text): nat { if b == [] then 0 else b[0] + 256 * Number(b[1..]) }

  lemma Number4(b: Text)
    requires |b| == 4
    ensures Number(b) == b[0] + 256 * (b[1] + 256 * (b[2] + 256 * b[3] as int))
  {
    var b3, b2, b1 := b[1..], b[2..], b[3..];
    assert b3[1..] == b2 && b2[1..] == b1 && b1[1..] == [];
    assert Number(b1) == b[3];
  }

  lemma WordBytes(w: word)
    ensures ByteOf(w, 0) + 256 * (ByteOf(w, 1) + 256 * (ByteOf(w, 2) + 256 * ByteOf(w, 3) as int)) == w
  {
    hide ByteOf;
    WordParts(w);
  }

  // Section 3.3 of RFC 1321 gives the initial state byte by byte.
  lemma InitialBytes()
    ensures INIT == [Number([0x01, 0x23, 0x45, 0x67]), Number([0x89, 0xab, 0xcd, 0xef]), Number([0xfe, 0xdc, 0xba, 0x98]), Number([0x76, 0x54, 0x32, 0x10])]
  {
    hide Number;
    Number4([0x01, 0x23, 0x45, 0x67]);
    Number4([0x89, 0xab, 0xcd, 0xef]);
    Number4([0xfe, 0xdc, 0xba, 0x98]);
    Number4([0x76, 0x54, 0x32, 0x10]);
  }

  // The digest holds the words of the state, each with its least significant byte first.
  lemma DigestIsLittleEndian(s: seq<word>, i: nat)
    requires |s| == WORDS && i < WORDS
    ensures Number(WordsToBytes(s)[4 * i..4 * i + 4]) == s[i]
  {
    hide Number;
    var b := WordsToBytes(s)[4 * i..4 * i + 4];
    Number4(b);
    WordBytes(s[i]);
    Quarter(i, 0);
    Quarter(i, 1);
    Quarter(i, 2);
    Quarter(i, 3);
    hide ByteOf;
    var all := WordsToBytes(s);
    assert b[0] == all[4 * i + 0] && b[1] == all[4 * i + 1] && b[2] == all[4 * i + 2] && b[3] == all[4 * i + 3];
  }

  // Sections 3.1 and 3.2 of RFC 1321: a one bit, zeros to fill a block up to eight bytes, and the number of bits
  // in two words, the low one first.
  lemma PaddedMessage(n: nat) returns (zeros: nat)
    ensures zeros < 64 && (n + 1 + zeros + 8) % 64 == 0 && |Padding(n)| == zeros + 9
    ensures Padding(n)[..zeros + 1] == [128] + seq(zeros, _ => 0)
    ensures Number(Padding(n)[zeros + 1..zeros + 5]) == 8 * n % 0x1_0000_0000
    ensures Number(Padding(n)[zeros + 5..]) == 8 * n / 0x1_0000_0000 % 0x1_0000_0000
  {
    zeros := PadLen(n);
    PadEnds(n, zeros);
    var m := n + 1 + zeros;
    assert m == 64 * (m / 64) + 56;
    DivMod(m + 8, m / 64 + 1, 0);
    CountIsLittleEndian(HighBits(n), LowBits(n));
    var c := CountBytes(HighBits(n), LowBits(n));
    assert Padding(n)[zeros + 1..] == c;
    assert Padding(n)[zeros + 1..zeros + 5] == c[..4] && Padding(n)[zeros + 5..] == c[4..];
  }

  lemma CountIsLittleEndian(high: word, low: word)
    ensures Number(CountBytes(high, low)[..4]) == low && Number(CountBytes(high, low)[4..]) == high
  {
    var b := CountBytes(high, low);
    Number4(b[..4]);
    Number4(b[4..]);
    WordBytes(high);
    WordBytes(low);
    assert b[..4][0] == ByteOf(low, 0) && b[..4][1] == ByteOf(low, 1) && b[..4][2] == ByteOf(low, 2) && b[..4][3] == ByteOf(low, 3);
    assert b[4..][0] == ByteOf(high, 0) && b[4..][1] == ByteOf(high, 1) && b[4..][2] == ByteOf(high, 2) && b[4..][3] == ByteOf(high, 3);
  }

  // Adding a piece of a length that fits 32 bits gives the right count.
  lemma CountIsRight(n: nat, len: nat)
    requires len < WORD
    ensures var low := Low(LowBits(n) + LowBits(len));
      && low == LowBits(n + len)
      && (HighBits(n) + (if low < LowBits(n) then 1 else 0) + len / 0x2000_0000) % WORD == HighBits(n + len)
  {
    LowBitsAdd(n, len);
    HighBitsAdd(n, len);
    assert 8 * len / WORD == len / 0x2000_0000;
  }

  class Context {
    const transform: Transform
    var buf: seq<word>
    var bits0: word
    var bits1: word
    const inp: array<byte>
    ghost var msg: Text

    ghost predicate Valid()
      reads this, inp
    {
      && KeepsSize(transform, WORDS) && inp.Length == BLOCK
      && buf == Fold(transform, INIT, msg)
      && inp[..|Tail(msg)|] == Tail(msg)
      && bits0 == LowBits(|msg|) && bits1 == HighBits(|msg|)
    }

    // pj_md5_init
    constructor (transform: Transform)
      requires KeepsSize(transform, WORDS)
      ensures Valid() && msg == [] && this.transform == transform && fresh(inp)
    {
      this.transform := transform;
      buf, bits0, bits1, msg := INIT, 0, 0, [];
      inp := new byte[BLOCK](_ => 0);
    }

    // Absorb data behind the first t bytes of the buffer.
    method Absorb(used: nat, data: Text)
      requires inp.Length == BLOCK && used < BLOCK
      modifies this`buf, inp
      ensures var x := old(inp[..used]) + data;
        buf == Fold(transform, old(buf), x) && inp[..|Tail(x)|] == Tail(x)
    {
      ghost var x, s0 := inp[..used] + data, buf;
      var rest := data;
      if used != 0 {
        var room := BLOCK - used;
        if |data| < room {
          Write(inp, used, data);
          return;
        }
        Write(inp, used, data[..room]);
        assert inp[..] == inp[..BLOCK] == old(inp[..used]) + data[..room];
        assert x == inp[..] + data[room..];
        FoldBlock(transform, s0, inp[..], data[room..]);
        buf := transform(buf, inp[..]);
        rest := data[room..];
      } else {
        assert x == data;
      }
      while |rest| >= BLOCK
        invariant Fold(transform, buf, rest) == Fold(transform, s0, x) && Tail(rest) == Tail(x)
      {
        Write(inp, 0, rest[..BLOCK]);
        assert inp[..] == inp[..BLOCK] == rest[..BLOCK];
        assert rest == rest[..BLOCK] + rest[BLOCK..];
        FoldBlock(transform, buf, rest[..BLOCK], rest[BLOCK..]);
        buf := transform(buf, inp[..]);
        rest := rest[BLOCK..];
      }
      Write(inp, 0, rest);
    }

    // pj_md5_update
    method Update(data: Text)
      requires Valid() && |data| < WORD
      modifies this, inp
      ensures Valid() && msg == old(msg) + data
    {
      hide Fold, Tail, LowBits, HighBits, Low;
      Position(|msg|);
      CountIsRight(|msg|, |data|);
      FoldAppend(transform, INIT, msg, data);
      var t := bits0;
      bits0 := Low(t + LowBits(|data|));
      if bits0 < t {
        bits1 := Low(bits1 + 1 + |data| / 0x2000_0000);
      } else {
        bits1 := Low(bits1 + |data| / 0x2000_0000);
      }
      t := t / 8 % BLOCK;
      assert inp[..t] == Tail(msg);
      assert bits1 == HighBits(|msg| + |data|) by { LowIs(); }
      Absorb(t, data);
      msg := msg + data;
    }

    // Zeros up to the count, the count, and the last transform.
    method PadTo(at: nat, zeros: nat, ghost start: Text)
      requires inp.Length == BLOCK && at + zeros == 56 && |start| == at && inp[..at] == start
      modifies this`buf, inp
      ensures buf == Fold(transform, old(buf), start + Zeros(zeros) + CountBytes(bits1, bits0))
    {
      hide CountBytes;
      Write(inp, at, Zeros(zeros));
      Write(inp, 56, CountBytes(bits1, bits0));
      ghost var only := inp[..];
      assert only == inp[..BLOCK] == start + Zeros(zeros) + CountBytes(bits1, bits0);
      assert only + [] == only;
      FoldBlock(transform, buf, only, []);
      FoldShort(transform, transform(buf, only));
      buf := transform(buf, inp[..]);
    }

    // The padding that starts late in a block: fill it, transform it, and put the count in another one.
    method PadOut(at: nat, room: nat, zeros: nat, ghost start: Text)
      requires inp.Length == BLOCK && at + room == BLOCK && zeros == 56 && |start| == at && inp[..at] == start
      modifies this`buf, inp
      ensures buf == Fold(transform, old(buf), (start + Zeros(room)) + (Zeros(zeros) + CountBytes(bits1, bits0)))
    {
      hide CountBytes;
      Write(inp, at, Zeros(room));
      ghost var first := inp[..];
      assert first == inp[..BLOCK] == start + Zeros(room);
      FoldBlock(transform, buf, first, Zeros(zeros) + CountBytes(bits1, bits0));
      buf := transform(buf, inp[..]);
      assert inp[..0] == [] && [] + Zeros(zeros) == Zeros(zeros);
      PadTo(0, zeros, []);
    }

    // pj_md5_final: the padding is written into the buffer.
    method Final() returns (digest: Text)
      requires Valid()
      modifies this, inp
      ensures digest == Md5(transform, old(msg))
      ensures buf == [0, 0, 0, 0] && bits0 == bits1 == 0 && inp[..] == Zeros(BLOCK)
    {
      hide Fold, Tail, LowBits, HighBits, KeepsSize, CountBytes, Padding;
      ghost var m, p := msg, Padding(|msg|);
      Position(|m|);
      FoldAppend(transform, INIT, m, p);
      ghost var tail := Tail(m);
      var count := bits0 / 8 % BLOCK;
      Write(inp, count, [0x80]);
      var free := BLOCK - 1 - count;
      if free < 8 {
        PadOut(count + 1, free, 56, tail + [0x80]);
      } else {
        PadTo(count + 1, free - 8, tail + [0x80]);
      }
      PaddingIs(|m|, tail);
      FoldSize(transform, WORDS, INIT, m + p);
      digest := WordsToBytes(buf);
      // the context is wiped
      buf, bits0, bits1 := [0, 0, 0, 0], 0, 0;
      forall i | 0 <= i < BLOCK {
        inp[i] := 0;
      }
    }
  }

  lemma LowIs()
    ensures forall a: int :: 0 <= a ==> Low(a) == a % WORD
  {}

  lemma FoldShort(t: Transform, s: seq<word>)
    ensures Fold(t, s, []) == s
  {}

  // How the padding falls into blocks.
  lemma PaddingIs(n: nat, tail: Text)
    requires |tail| == n % BLOCK
    ensures var free, c := BLOCK - 1 - |tail|, CountBytes(HighBits(n), LowBits(n));
      tail + Padding(n) == if free < 8 then (tail + [0x80] + Zeros(free)) + (Zeros(56) + c) else tail + [0x80] + Zeros(free - 8) + c
  {
    hide CountBytes, LowBits, HighBits;
    if |tail| > 55 { assert Zeros(PadLen(n)) == Zeros(BLOCK - 1 - |tail|) + Zeros(56); }
  }

  // However a message is cut into pieces, the result is its MD5 digest.
  method Hash(transform: Transform, pieces: seq<Text>) returns (digest: Text)
    requires KeepsSize(transform, WORDS) && forall i :: 0 <= i < |pieces| ==> |pieces[i]| < WORD
    ensures digest == Md5(transform, Join(pieces))
  {
    hide Fold, Tail, LowBits, HighBits, Low, KeepsSize;
    var c := new Context(transform);
    for i := 0 to |pieces|
      invariant c.Valid() && c.transform == transform && fresh(c) && fresh(c.inp) && c.msg == Join(pieces[..i])
    {
      c.Update(pieces[i]);
      assert pieces[..i + 1][..i] == pieces[..i];
    }
    assert pieces[..|pieces|] == pieces;
    digest := c.Final();
  }
}
