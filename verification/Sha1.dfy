/** SHA-1 (sha1.c; section 4 of RFC 3174), over any block transform. */
module Sha1 {
  import opened Bytes
  import opened Digest

  const WORDS := 5
  const DIGEST_SIZE := 20

  const INIT: seq<word> := [0x67452301, 0xEFCDAB89, 0x98BADCFE, 0x10325476, 0xC3D2E1F0]

  // ---------------------------------------------------------------- the definition

  // A 64-bit count of bits, most significant byte first.
  function CountBytes(high: word, low: word): (b: Text)
    ensures |b| == 8
  {
    seq(8, i requires 0 <= i < 8 => ByteOf(if i >= 4 then low else high, 3 - i % 4))
  }

  function Pad(msg: Text, high: word, low: word): Text {
    msg + [0x80] + Zeros(PadLen(|msg|)) + CountBytes(high, low)
  }

  function WordsToBytes(s: seq<word>): (b: Text)
    requires |s| == WORDS
    ensures |b| == DIGEST_SIZE
  {
    seq(DIGEST_SIZE, i requires 0 <= i < DIGEST_SIZE => ByteOf(s[i / 4], 3 - i % 4))
  }

  // The digest of msg with a given count of bits in its last block.
  ghost function DigestWith(t: Transform, msg: Text, high: word, low: word): (d: Text)
    requires KeepsSize(t, WORDS)
    ensures |d| == DIGEST_SIZE
  {
    FoldSize(t, WORDS, INIT, Pad(msg, high, low));
    WordsToBytes(Fold(t, INIT, Pad(msg, high, low)))
  }

  // SHA-1 folds the transform over the message padded with its own length.
  ghost function Sha1(t: Transform, msg: Text): (d: Text)
    requires KeepsSize(t, WORDS)
    ensures |d| == DIGEST_SIZE
  {
    DigestWith(t, msg, HighBits(|msg|), LowBits(|msg|))
  }

  // Bytes as a number, the most significant first.
  function Number(b: Text): nat { if b == [] then 0 else Number(b[..|b| - 1]) * 256 + b[|b| - 1] }

  lemma Number4(b: Text)
    requires |b| == 4
    ensures Number(b) == ((b[0] as int * 256 + b[1]) * 256 + b[2]) * 256 + b[3]
  {
    var b3, b2, b1 := b[..3], b[..2], b[..1];
    assert b3[..2] == b2 && b2[..1] == b1 && b1[..0] == [];
    assert Number(b1) == b[0];
    assert Number(b2) == b[0] as int * 256 + b[1];
    assert Number(b3) == (b[0] as int * 256 + b[1]) * 256 + b[2];
  }

  lemma WordBytes(w: word)
    ensures ((ByteOf(w, 3) as int * 256 + ByteOf(w, 2)) * 256 + ByteOf(w, 1)) * 256 + ByteOf(w, 0) == w
  {
    hide ByteOf;
    WordParts(w);
  }

  // The initial state of section 6.1 of RFC 3174, byte by byte.
  lemma InitialBytes()
    ensures INIT ==
      [Number([0x67, 0x45, 0x23, 0x01]), Number([0xef, 0xcd, 0xab, 0x89]), Number([0x98, 0xba, 0xdc, 0xfe]), Number([0x10, 0x32, 0x54, 0x76]),
       Number([0xc3, 0xd2, 0xe1, 0xf0])]
  {
    hide Number;
    Number4([0x67, 0x45, 0x23, 0x01]);
    Number4([0xef, 0xcd, 0xab, 0x89]);
    Number4([0x98, 0xba, 0xdc, 0xfe]);
    Number4([0x10, 0x32, 0x54, 0x76]);
    Number4([0xc3, 0xd2, 0xe1, 0xf0]);
  }

  // The digest holds the words of the state, each with its most significant byte first.
  lemma DigestIsBigEndian(s: seq<word>, i: nat)
    requires |s| == WORDS && i < WORDS
    ensures Number(WordsToBytes(s)[4 * i..4 * i + 4]) == s[i]
  {
    hide Number;
    var b := WordsToBytes(s)[4 * i..4 * i + 4];
    Number4(b);
    WordBytes(s[i]);
    Quarter(i, 0);
    Quarter(i, 1);
    Quarter(i, 2);
    Quarter(i, 3);
    hide ByteOf;
    var all := WordsToBytes(s);
    assert b[0] == all[4 * i + 0] && b[1] == all[4 * i + 1] && b[2] == all[4 * i + 2] && b[3] == all[4 * i + 3];
  }

  // So does the count of bits: its words as one number.
  lemma CountIsBigEndian(high: word, low: word)
    ensures Number(CountBytes(high, low)[..4]) == high && Number(CountBytes(high, low)[4..]) == low
  {
    var b := CountBytes(high, low);
    Number4(b[..4]);
    Number4(b[4..]);
    WordBytes(high);
    WordBytes(low);
    assert b[..4][0] == ByteOf(high, 3) && b[..4][1] == ByteOf(high, 2) && b[..4][2] == ByteOf(high, 1) && b[..4][3] == ByteOf(high, 0);
    assert b[4..][0] == ByteOf(low, 3) && b[4..][1] == ByteOf(low, 2) && b[4..][2] == ByteOf(low, 1) && b[4..][3] == ByteOf(low, 0);
  }

  // Section 4 of RFC 3174: the message, a one bit, zeros to fill a block up to eight bytes, and the number of bits.
  lemma PaddedMessage(msg: Text, high: word, low: word) returns (zeros: nat)
    ensures zeros < 64 && (|msg| + 1 + zeros + 8) % 64 == 0
    ensures Pad(msg, high, low) == msg + [128] + seq(zeros, _ => 0) + CountBytes(high, low)
  {
    zeros := PadLen(|msg|);
    PadEnds(|msg|, zeros);
    var n := |msg| + 1 + zeros;
    assert n == 64 * (n / 64) + 56;
    DivMod(n + 8, n / 64 + 1, 0);
  }

  // ---------------------------------------------------------------- the count

  // The low word, compared with the untruncated number of bits to find the carry.
  function CountLow(low: word, len: nat): word { Low(low + LowBits(len)) }

  function CountHigh(low: word, high: word, len: nat): word {
    (high + (if CountLow(low, len) < 8 * len then 1 else 0) + len % WORD / 0x2000_0000) % WORD
  }

  lemma HighPart(len: nat)
    ensures 8 * len / WORD == 8 * (len / WORD) + len % WORD / 0x2000_0000
  {
    var q, r := len / WORD, len % WORD;
    assert 8 * len == WORD * (8 * q) + 8 * r;
    WordMod(8 * len, 8 * q, 8 * r);
  }

  lemma CarryShort(low: word, len: nat)
    requires len < 0x2000_0000
    ensures Carry(low, LowBits(len)) == if CountLow(low, len) < 8 * len then 1 else 0
  {
    assert LowBits(len) == 8 * len;
  }

  // Adding a piece (of less than 2^61 bytes) gives the right count exactly when the piece is shorter
  // than 2^29 bytes, or shorter than 2^32 bytes and the low words carry.
  lemma CountIsRight(n: nat, len: nat)
    requires len < 0x2000_0000_0000_0000
    ensures CountLow(LowBits(n), len) == LowBits(n + len)
    ensures CountHigh(LowBits(n), HighBits(n), len) == HighBits(n + len) <==>
      len < 0x2000_0000 || (len < WORD && Carry(LowBits(n), LowBits(len)) == 1)
  {
    LowBitsAdd(n, len);
    HighBitsAdd(n, len);
    HighPart(len);
    var low, high, c := LowBits(n), HighBits(n), Carry(LowBits(n), LowBits(len));
    var q, r := len / WORD, len % WORD / 0x2000_0000;
    if len < 0x2000_0000 {
      CarryShort(low, len);
      assert q == 0;
    } else {
      assert CountLow(low, len) < WORD <= 8 * len;
      LongPiece(high + r, q, c);
    }
  }

  // high + r + 1 against high + r + 8 q + c.
  lemma LongPiece(x: nat, q: nat, c: nat)
    requires c <= 1 && q < 0x2000_0000
    ensures (x + 1) % WORD == (x + 8 * q + c) % WORD <==> c == 1 && q == 0
  {
    var a, b := (x + 1) / WORD, (x + 8 * q + c) / WORD;
    assert x + 1 == WORD * a + (x + 1) % WORD && x + 8 * q + c == WORD * b + (x + 8 * q + c) % WORD;
    if (x + 1) % WORD == (x + 8 * q + c) % WORD {
      assert 8 * q + c - 1 == WORD * (b - a);
      assert c == 1;
    }
  }

  // For instance not for a first piece of 2^29 bytes.
  lemma LongFirstPieceMiscounts()
    ensures CountHigh(LowBits(0), HighBits(0), 0x2000_0000) == 2 && HighBits(0x2000_0000) == 1
  {}

  // ---------------------------------------------------------------- the context

  class Context {
    const transform: Transform
    const scratch: (Text, nat) -> byte   // what the transform leaves in the block it was given
    var state: seq<word>
    var count0: word
    var count1: word
    const buffer: array<byte>
    ghost var msg: Text                  // all data so far

    ghost predicate Valid()
      reads this, buffer
    {
      && KeepsSize(transform, WORDS) && buffer.Length == BLOCK
      && state == Fold(transform, INIT, msg)
      && buffer[..|Tail(msg)|] == Tail(msg)
      && count0 == LowBits(|msg|)
    }

    // pj_sha1_init
    constructor (transform: Transform, scratch: (Text, nat) -> byte)
      requires KeepsSize(transform, WORDS)
      ensures Valid() && msg == [] && this.transform == transform && fresh(buffer) && count0 == count1 == 0
    {
      this.transform, this.scratch := transform, scratch;
      state, count0, count1, msg := INIT, 0, 0, [];
      buffer := new byte[BLOCK](_ => 0);
    }

    // Transform the buffer, which is overwritten.
    method TransformBuffer()
      requires buffer.Length == BLOCK
      modifies this`state, buffer
      ensures state == transform(old(state), old(buffer[..]))
    {
      var block := buffer[..];
      state := transform(state, block);
      forall i | 0 <= i < BLOCK {
        buffer[i] := scratch(block, i);
      }
    }

    // Absorb data behind the first j bytes of the buffer.
    method Absorb(j: nat, data: Text)
      requires buffer.Length == BLOCK && j < BLOCK
      modifies this`state, buffer
      ensures var x := old(buffer[..j]) + data;
        state == Fold(transform, old(state), x) && buffer[..|Tail(x)|] == Tail(x)
    {
      ghost var x, s0 := buffer[..j] + data, state;
      var i, at := 0, j;
      if j + |data| > 63 {
        i := BLOCK - j;
        Write(buffer, j, data[..i]);
        assert buffer[..] == buffer[..BLOCK] == old(buffer[..j]) + data[..i];
        assert x == buffer[..] + data[i..];
        FoldBlock(transform, s0, buffer[..], data[i..]);
        TransformBuffer();
        while i + 63 < |data|
          invariant i <= |data| && Fold(transform, state, data[i..]) == Fold(transform, s0, x) && Tail(data[i..]) == Tail(x)
        {
          assert data[i..] == data[i..i + BLOCK] + data[i + BLOCK..];
          FoldBlock(transform, state, data[i..i + BLOCK], data[i + BLOCK..]);
          state := transform(state, data[i..i + BLOCK]);
          i := i + BLOCK;
        }
        at := 0;
      }
      Write(buffer, at, data[i..]);
    }

    // pj_sha1_update
    method Update(data: Text)
      requires Valid()
      modifies this, buffer
      ensures Valid() && msg == old(msg) + data && count1 == CountHigh(old(count0), old(count1), |data|)
    {
      hide Fold, Tail, LowBits, HighBits, Low;
      Position(|msg|);
      LowBitsAdd(|msg|, |data|);
      FoldAppend(transform, INIT, msg, data);
      var j := count0 / 8 % BLOCK;
      var low := CountLow(count0, |data|);
      count1 := CountHigh(count0, count1, |data|);
      count0 := low;
      assert buffer[..j] == Tail(msg);
      Absorb(j, data);
      msg := msg + data;
    }

    // pj_sha1_final: padding bytes go through Update one at a time; then the context is wiped.
    method Final() returns (digest: Text)
      requires Valid()
      modifies this, buffer
      ensures digest == DigestWith(transform, old(msg), old(count1), old(count0))
    {
      hide Fold, Tail, LowBits, HighBits, Low, CountHigh;
      ghost var m, k := msg, 0;
      var finalCount := CountBytes(count1, count0);
      Update([0x80]);
      assert msg == m + [0x80] + Zeros(0);
      Position(|msg|);
      while count0 / 8 % BLOCK != 56
        invariant Valid() && k <= PadLen(|m|) && msg == m + [0x80] + Zeros(k) && count0 / 8 % BLOCK == (|m| + 1 + k) % BLOCK
        decreases PadLen(|m|) - k
      {
        PadEnds(|m|, k);
        Update([0]);
        assert Zeros(k) + [0] == Zeros(k + 1);
        assert msg == m + [0x80] + Zeros(k + 1);
        k := k + 1;
        Position(|msg|);
      }
      PadEnds(|m|, k);
      Update(finalCount);
      FoldSize(transform, WORDS, INIT, msg);
      digest := WordsToBytes(state);
      state, count0, count1 := [0, 0, 0, 0, 0], 0, 0;
      forall i | 0 <= i < BLOCK {
        buffer[i] := 0;
      }
    }
  }

  // The high word of the count after pieces.
  function HighAfter(pieces: seq<Text>): word {
    if pieces == [] then 0
    else
      var k := |pieces| - 1;
      CountHigh(LowBits(|Join(pieces[..k])|), HighAfter(pieces[..k]), |pieces[k]|)
  }

  predicate ShortPieces(pieces: seq<Text>) { forall i :: 0 <= i < |pieces| ==> |pieces[i]| < 0x2000_0000 }

  lemma {:induction false} ShortPiecesCount(pieces: seq<Text>)
    requires ShortPieces(pieces)
    ensures HighAfter(pieces) == HighBits(|Join(pieces)|)
  {
    if pieces == [] {
      NoBits();
    } else {
      var k := |pieces| - 1;
      ShortPiecesCount(pieces[..k]);
      hide CountHigh, LowBits, HighBits;
      CountIsRight(|Join(pieces[..k])|, |pieces[k]|);
    }
  }

  // However a message is cut into pieces, the result is its digest with the count that the code keeps;
  // that is its SHA-1 digest when the pieces are shorter than 2^29 bytes.
  method Hash(transform: Transform, scratch: (Text, nat) -> byte, pieces: seq<Text>) returns (digest: Text)
    requires KeepsSize(transform, WORDS)
    ensures digest == DigestWith(transform, Join(pieces), HighAfter(pieces), LowBits(|Join(pieces)|))
    ensures ShortPieces(pieces) ==> digest == Sha1(transform, Join(pieces))
  {
    hide Fold, Tail, LowBits, HighBits, Low, CountHigh, KeepsSize;
    var c := new Context(transform, scratch);
    for i := 0 to |pieces|
      invariant c.Valid() && c.transform == transform && fresh(c) && fresh(c.buffer)
      invariant c.msg == Join(pieces[..i]) && c.count1 == HighAfter(pieces[..i])
    {
      c.Update(pieces[i]);
      assert pieces[..i + 1][..i] == pieces[..i];
    }
    assert pieces[..|pieces|] == pieces;
    digest := c.Final();
    if ShortPieces(pieces) { ShortPiecesCount(pieces); }
  }
}
