/** What the streaming digests share: messages cut into 64-byte blocks, and the 64-bit count of bits
    kept in two 32-bit words.  The block transform is a parameter. */
module Digest {
  import opened Bytes

  type Text = seq<byte>

  type word = x: int | 0 <= x < 0x1_0000_0000

  type Transform = (seq<word>, Text) -> seq<word>

  const BLOCK := 64
  const WORD := 0x1_0000_0000

  // ---------------------------------------------------------------- blocks

  // The state after all whole blocks of data.
  function Fold(t: Transform, s: seq<word>, data: Text): seq<word>
    decreases |data|
  {
    if |data| < BLOCK then s else Fold(t, t(s, data[..BLOCK]), data[BLOCK..])
  }

  // What is left after the whole blocks.
  function Tail(data: Text): (r: Text)
    ensures |r| < BLOCK && |r| == |data| % BLOCK
  {
    if |data| < BLOCK then data
    else
      ModPlus(|data| - BLOCK);
      Tail(data[BLOCK..])
  }

  lemma ModPlus(n: nat)
    ensures (n + BLOCK) % BLOCK == n % BLOCK
  {}

  // Data may be folded in two parts, carrying the tail of the first over to the second.
  lemma {:induction false} FoldAppend(t: Transform, s: seq<word>, a: Text, b: Text)
    ensures Fold(t, s, a + b) == Fold(t, Fold(t, s, a), Tail(a) + b)
    ensures Tail(a + b) == Tail(Tail(a) + b)
    decreases |a|
  {
    if |a| >= BLOCK {
      assert (a + b)[..BLOCK] == a[..BLOCK] && (a + b)[BLOCK..] == a[BLOCK..] + b;
      FoldAppend(t, t(s, a[..BLOCK]), a[BLOCK..], b);
    }
  }

  lemma FoldBlock(t: Transform, s: seq<word>, a: Text, b: Text)
    requires |a| == BLOCK
    ensures Fold(t, s, a + b) == Fold(t, t(s, a), b) && Tail(a + b) == Tail(b)
  {
    assert (a + b)[..BLOCK] == a && (a + b)[BLOCK..] == b;
  }

  // ---------------------------------------------------------------- words and counts

  function ByteOf(w: word, k: nat): byte {
    if k == 0 then w % 256 else if k == 1 then w / 0x100 % 256 else if k == 2 then w / 0x1_0000 % 256 else w / 0x100_0000 % 256
  }

  lemma Quarter(i: nat, k: nat)
    requires k < 4
    ensures (4 * i + k) / 4 == i && (4 * i + k) % 4 == k
  {}

  lemma WordParts(w: word)
    ensures w == ByteOf(w, 0) + 0x100 * ByteOf(w, 1) + 0x1_0000 * ByteOf(w, 2) + 0x100_0000 * ByteOf(w, 3)
  {
    var a, b, c := w / 0x100, w / 0x1_0000, w / 0x100_0000;
    assert b == a / 0x100 && c == b / 0x100;
    assert w == 0x100 * a + ByteOf(w, 0) && a == 0x100 * b + ByteOf(w, 1) && b == 0x100 * c + ByteOf(w, 2);
    assert c < 256;
  }

  // 32-bit addition, and its carry.
  function Low(a: int): word
    requires 0 <= a
  {
    a % WORD
  }

  // The number of bits in n bytes, as two words.
  function LowBits(n: nat): word { 8 * n % WORD }

  function HighBits(n: nat): word { 8 * n / WORD % WORD }

  // The position in the current block, from the count of bits.
  lemma Position(n: nat)
    ensures LowBits(n) / 8 % BLOCK == n % BLOCK
  {
    var q := 8 * n / WORD;
    assert 8 * n == WORD * q + LowBits(n);
    assert LowBits(n) / 8 == n - 0x2000_0000 * q;
    assert n == BLOCK * (n / BLOCK) + n % BLOCK;
    assert n - 0x2000_0000 * q == BLOCK * (n / BLOCK - 0x80_0000 * q) + n % BLOCK;
    DivMod(n - 0x2000_0000 * q, n / BLOCK - 0x80_0000 * q, n % BLOCK);
  }

  lemma DivMod(a: nat, q: int, r: nat)
    requires a == BLOCK * q + r && r < BLOCK
    ensures a % BLOCK == r
  {}

  lemma LowBitsAdd(n: nat, len: nat)
    ensures LowBits(n + len) == Low(LowBits(n) + LowBits(len))
  {
    var a, b := 8 * n / WORD, 8 * len / WORD;
    var x := LowBits(n) + LowBits(len);
    assert 8 * n == WORD * a + LowBits(n) && 8 * len == WORD * b + LowBits(len);
    assert 8 * (n + len) == WORD * (a + b) + x;
    WordMod(8 * (n + len), a + b, x);
  }

  lemma WordMod(a: nat, q: nat, x: nat)
    requires a == WORD * q + x
    ensures a % WORD == x % WORD && a / WORD == q + x / WORD
  {
    var r := x / WORD;
    assert x == WORD * r + x % WORD;
    assert a == WORD * (q + r) + x % WORD;
  }

  // The carry of the low words, and the high words.
  function Carry(a: word, b: word): nat { if a + b >= WORD then 1 else 0 }

  lemma HighBitsAdd(n: nat, len: nat)
    ensures HighBits(n + len) == (HighBits(n) + 8 * len / WORD + Carry(LowBits(n), LowBits(len))) % WORD
  {
    var a, b := 8 * n / WORD, 8 * len / WORD;
    var x := LowBits(n) + LowBits(len);
    assert 8 * n == WORD * a + LowBits(n) && 8 * len == WORD * b + LowBits(len);
    WordMod(8 * (n + len), a + b, x);
    assert x / WORD == Carry(LowBits(n), LowBits(len));
    var q := a / WORD;
    assert a == WORD * q + HighBits(n);
    WordMod(a + b + Carry(LowBits(n), LowBits(len)), q, HighBits(n) + b + Carry(LowBits(n), LowBits(len)));
  }

  // ---------------------------------------------------------------- padding and pieces

  // Zeros that bring a message and one byte to 56 modulo 64.
  function PadLen(n: nat): (k: nat)
    ensures k < BLOCK
  {
    if n % BLOCK <= 55 then 55 - n % BLOCK else 119 - n % BLOCK
  }

  function Zeros(k: nat): Text { seq(k, _ => 0) }

  ghost predicate KeepsSize(t: Transform, n: nat) { forall s, b :: |s| == n ==> |t(s, b)| == n }

  lemma {:induction false} FoldSize(t: Transform, n: nat, s: seq<word>, data: Text)
    requires KeepsSize(t, n) && |s| == n
    ensures |Fold(t, s, data)| == n
    decreases |data|
  {
    if |data| >= BLOCK { FoldSize(t, n, t(s, data[..BLOCK]), data[BLOCK..]); }
  }

  lemma PadEnds(n: nat, k: nat)
    requires k <= PadLen(n)
    ensures (n + 1 + k) % BLOCK == 56 <==> k == PadLen(n)
  {
    var q, r := n / BLOCK, n % BLOCK;
    assert n == BLOCK * q + r;
    if r + 1 + k < BLOCK {
      DivMod(n + 1 + k, q, r + 1 + k);
    } else {
      DivMod(n + 1 + k, q + 1, r + 1 + k - BLOCK);
    }
  }

  lemma NoBits()
    ensures HighBits(0) == 0
  {}
}
