/** HMAC (hmac_sha1.c and hmac_md5.c; section 2 of RFC 2104). */
module HmacPads {
  import opened Bytes
  import opened Digest

  const IPAD: byte := 0x36
  const OPAD: byte := 0x5c

  function Xor(a: byte, b: byte): byte { ((a as bv8) ^ (b as bv8)) as int }

  // A key of at most one block, extended with zeros and combined with a pad byte.
  function PadKey(key: Text, pad: byte): (p: Text)
    requires |key| <= BLOCK
    ensures |p| == BLOCK
  {
    seq<byte>(BLOCK, i requires 0 <= i < BLOCK => Xor(if i < |key| then key[i] else 0, pad))
  }

  // Both pads are filled and combined in place.
  method FillPads(key: Text, ipad: array<byte>, opad: array<byte>)
    requires |key| <= BLOCK && ipad.Length == opad.Length == BLOCK && ipad != opad
    modifies ipad, opad
    ensures ipad[..] == PadKey(key, IPAD) && opad[..] == PadKey(key, OPAD)
  {
    hide Xor;
    forall i | 0 <= i < BLOCK {
      ipad[i] := 0;
    }
    forall i | 0 <= i < BLOCK {
      opad[i] := 0;
    }
    CopyKey(key, ipad);
    CopyKey(key, opad);
    for i := 0 to BLOCK
      invariant forall k :: 0 <= k < BLOCK ==> ipad[k] == if k < i then PadKey(key, IPAD)[k] else if k < |key| then key[k] else 0
      invariant forall k :: 0 <= k < BLOCK ==> opad[k] == if k < i then PadKey(key, OPAD)[k] else if k < |key| then key[k] else 0
    {
      ipad[i] := Xor(ipad[i], IPAD);
      opad[i] := Xor(opad[i], OPAD);
    }
  }

  // The bytes of the pads, as section 2 of RFC 2104 has them.
  lemma PadsAre(key: Text, i: nat)
    requires |key| <= BLOCK && i < 64
    ensures var k: byte := if i < |key| then key[i] else 0; PadKey(key, IPAD)[i] == Xor(k, 0x36) && PadKey(key, OPAD)[i] == Xor(k, 0x5c)
  {
    hide Xor;
  }

  lemma XorBack(a: byte, b: byte)
    ensures Xor(a, b) as bv8 == a as bv8 ^ b as bv8
  {}

  method CopyKey(key: Text, pad: array<byte>)
    requires |key| <= pad.Length
    modifies pad
    ensures forall k :: 0 <= k < pad.Length ==> pad[k] == if k < |key| then key[k] else old(pad[k])
  {
    forall i | 0 <= i < |key| {
      pad[i] := key[i];
    }
  }

  lemma JoinOne(key: Text)
    ensures Join([key]) == key
  {
    assert [key][..0] == [];
  }

  lemma {:induction false} JoinMore(first: Text, pieces: seq<Text>)
    ensures Join([first] + pieces) == first + Join(pieces)
  {
    if pieces == [] {
      JoinOne(first);
      assert [first] + pieces == [first];
    } else {
      var k := |pieces| - 1;
      JoinMore(first, pieces[..k]);
      assert ([first] + pieces)[..k + 1] == [first] + pieces[..k];
    }
  }
}

module HmacSha1 {
  import opened Bytes
  import opened Digest
  import opened HmacPads
  import Sha1

  // H(K xor opad, H(K xor ipad, text)), where a key of more than a block stands for its digest
  ghost function Hmac(t: Transform, key: Text, text: Text): Text
    requires KeepsSize(t, Sha1.WORDS)
  {
    var k := if |key| > BLOCK then Sha1.Sha1(t, key) else key;
    Sha1.Sha1(t, PadKey(k, OPAD) + Sha1.Sha1(t, PadKey(k, IPAD) + text))
  }

  // The digest of pieces with the count that the code keeps.
  ghost function Counted(t: Transform, pieces: seq<Text>): (d: Text)
    requires KeepsSize(t, Sha1.WORDS)
    ensures |d| == Sha1.DIGEST_SIZE
  {
    Sha1.DigestWith(t, Join(pieces), Sha1.HighAfter(pieces), LowBits(|Join(pieces)|))
  }

  ghost function KeyOf(t: Transform, key: Text): (k: Text)
    requires KeepsSize(t, Sha1.WORDS)
    ensures |k| <= BLOCK
  {
    if |key| > BLOCK then Counted(t, [key]) else key
  }

  // The same over digests with the count that the code keeps; the outer message is short.
  ghost function HmacCounted(t: Transform, key: Text, pieces: seq<Text>): Text
    requires KeepsSize(t, Sha1.WORDS)
  {
    var k := KeyOf(t, key);
    Sha1.Sha1(t, PadKey(k, OPAD) + Counted(t, [PadKey(k, IPAD)] + pieces))
  }

  lemma ShortCounted(t: Transform, pieces: seq<Text>)
    requires KeepsSize(t, Sha1.WORDS) && Sha1.ShortPieces(pieces)
    ensures Counted(t, pieces) == Sha1.Sha1(t, Join(pieces))
  {
    hide KeepsSize, Fold;
    Sha1.ShortPiecesCount(pieces);
  }

  // For a key and pieces under 2^29 bytes it is the value of section 2 of RFC 2104.
  lemma ShortHmac(t: Transform, key: Text, pieces: seq<Text>)
    requires KeepsSize(t, Sha1.WORDS) && Sha1.ShortPieces([key]) && Sha1.ShortPieces(pieces)
    ensures HmacCounted(t, key, pieces) == Hmac(t, key, Join(pieces))
  {
    hide KeepsSize, Sha1.Sha1, Counted, PadKey, Join;
    ShortCounted(t, [key]);
    JoinOne(key);
    var ipad := PadKey(KeyOf(t, key), IPAD);
    ShortCounted(t, [ipad] + pieces);
    JoinMore(ipad, pieces);
  }

  class Context {
    var context: Sha1.Context
    const kOpad: array<byte>
    const transform: Transform
    const scratch: (Text, nat) -> byte
    ghost const key: Text
    ghost var pieces: seq<Text>   // the input so far

    ghost predicate Valid()
      reads this, context, context.buffer, kOpad
    {
      && context.Valid() && context.transform == transform && context.buffer != kOpad
      && kOpad[..] == PadKey(KeyOf(transform, key), OPAD)
      && Fed(context.msg, context.count1, [PadKey(KeyOf(transform, key), IPAD)] + pieces)
    }

    constructor (transform: Transform, scratch: (Text, nat) -> byte, key: Text)
      requires KeepsSize(transform, Sha1.WORDS)
      ensures Valid() && this.transform == transform && this.key == key && pieces == []
      ensures fresh(context) && fresh(context.buffer) && fresh(kOpad)
    {
      hide Sha1.Sha1, Sha1.DigestWith, PadKey, Fed, Sha1.HighAfter, Join;
      var k := key;
      if |key| > BLOCK {
        k := Sha1.Hash(transform, scratch, [key]);
      }
      var ipad, opad := new byte[BLOCK](_ => 0), new byte[BLOCK](_ => 0);
      FillPads(k, ipad, opad);
      var c := new Sha1.Context(transform, scratch);
      ghost var none: seq<Text> := [];
      FedNothing();
      FedMore(c.msg, c.count1, none, ipad[..]);
      c.Update(ipad[..]);
      assert none + [ipad[..]] == [ipad[..]] + none;
      this.transform, this.key, pieces := transform, key, none;
      this.scratch := scratch;
      context, kOpad := c, opad;
    }

    method Update(input: Text)
      requires Valid()
      modifies this, context, context.buffer
      ensures Valid() && pieces == old(pieces) + [input] && context == old(context)
    {
      hide Sha1.Sha1, PadKey, LowBits, HighBits, Sha1.CountHigh, Fed;
      ghost var ipad := PadKey(KeyOf(transform, key), IPAD);
      FedMore(context.msg, context.count1, [ipad] + pieces, input);
      context.Update(input);
      assert ([ipad] + pieces) + [input] == [ipad] + (pieces + [input]);
      pieces := pieces + [input];
    }

    method Final() returns (digest: Text)
      requires Valid()
      modifies this, context, context.buffer
      ensures digest == HmacCounted(transform, key, old(pieces))
    {
      hide PadKey, Sha1.DigestWith, LowBits, HighBits, Sha1.CountHigh, Fold, Tail, Sha1.HighAfter, Join;
      ghost var k := KeyOf(transform, key);
      digest := context.Final();
      ghost var inner := digest;
      assert inner == Counted(transform, [PadKey(k, IPAD)] + pieces);
      context := new Sha1.Context(transform, scratch);
      ZeroBits();
      Sha1.CountIsRight(0, BLOCK);
      context.Update(kOpad[..]);
      assert context.msg == PadKey(k, OPAD);
      Sha1.CountIsRight(|context.msg|, |digest|);
      context.Update(digest);
      assert context.msg == PadKey(k, OPAD) + inner;
      digest := context.Final();
    }
  }

  // A context that has been given these pieces.
  ghost predicate Fed(msg: Text, high: word, pieces: seq<Text>) {
    msg == Join(pieces) && high == Sha1.HighAfter(pieces)
  }

  lemma FedNothing()
    ensures Fed([], 0, [])
  {}

  lemma FedMore(msg: Text, high: word, pieces: seq<Text>, piece: Text)
    requires Fed(msg, high, pieces)
    ensures Fed(msg + piece, Sha1.CountHigh(LowBits(|msg|), high, |piece|), pieces + [piece])
  {
    hide Sha1.CountHigh, LowBits;
    assert (pieces + [piece])[..|pieces|] == pieces;
  }

  lemma ZeroBits()
    ensures LowBits(0) == 0 && HighBits(0) == 0
  {}

  // One call, or any cut of the input into pieces.
  method Authenticate(transform: Transform, scratch: (Text, nat) -> byte, key: Text, pieces: seq<Text>) returns (digest: Text)
    requires KeepsSize(transform, Sha1.WORDS)
    ensures digest == HmacCounted(transform, key, pieces)
    ensures Sha1.ShortPieces([key]) && Sha1.ShortPieces(pieces) ==> digest == Hmac(transform, key, Join(pieces))
  {
    hide KeepsSize, Hmac, HmacCounted;
    var c := new Context(transform, scratch, key);
    for i := 0 to |pieces|
      invariant c.Valid() && c.transform == transform && c.key == key && fresh(c) && fresh(c.context) && fresh(c.context.buffer)
      invariant c.pieces == pieces[..i]
    {
      c.Update(pieces[i]);
    }
    assert pieces[..|pieces|] == pieces;
    digest := c.Final();
    if Sha1.ShortPieces([key]) && Sha1.ShortPieces(pieces) { ShortHmac(transform, key, pieces); }
  }
}

module HmacMd5 {
  import opened Bytes
  import opened Digest
  import opened HmacPads
  import Md5

  ghost function KeyOf(t: Transform, key: Text): (k: Text)
    requires KeepsSize(t, Md5.WORDS)
    ensures |k| <= BLOCK
  {
    if |key| > BLOCK then Md5.Md5(t, key) else key
  }

  // H(K xor opad, H(K xor ipad, text))
  ghost function Hmac(t: Transform, key: Text, text: Text): Text
    requires KeepsSize(t, Md5.WORDS)
  {
    var k := KeyOf(t, key);
    Md5.Md5(t, PadKey(k, OPAD) + Md5.Md5(t, PadKey(k, IPAD) + text))
  }

  // Only keys longer than a block are replaced by their digest.
  lemma KeyIs(t: Transform, key: Text)
    requires KeepsSize(t, Md5.WORDS)
    ensures |key| <= 64 ==> KeyOf(t, key) == key
    ensures |key| > 64 ==> KeyOf(t, key) == Md5.Md5(t, key)
  {}

  class Context {
    var context: Md5.Context
    const kOpad: array<byte>
    const transform: Transform
    ghost const key: Text
    ghost var text: Text

    ghost predicate Valid()
      reads this, context, context.inp, kOpad
    {
      && context.Valid() && context.transform == transform && context.inp != kOpad
      && kOpad[..] == PadKey(KeyOf(transform, key), OPAD)
      && context.msg == PadKey(KeyOf(transform, key), IPAD) + text
    }

    constructor (transform: Transform, key: Text)
      requires KeepsSize(transform, Md5.WORDS) && |key| < WORD
      ensures Valid() && this.transform == transform && this.key == key && text == []
      ensures fresh(context) && fresh(context.inp) && fresh(kOpad)
    {
      hide Md5.Md5, PadKey;
      var k := key;
      if |key| > BLOCK {
        k := Md5.Hash(transform, [key]);
        assert Join([key]) == key by { JoinOne(key); }
      }
      var ipad, opad := new byte[BLOCK](_ => 0), new byte[BLOCK](_ => 0);
      FillPads(k, ipad, opad);
      var c := new Md5.Context(transform);
      c.Update(ipad[..]);
      this.transform, this.key, text := transform, key, [];
      context, kOpad := c, opad;
    }

    method Update(input: Text)
      requires Valid() && |input| < WORD
      modifies this, context, context.inp
      ensures Valid() && text == old(text) + input && context == old(context)
    {
      hide Md5.Md5, PadKey;
      context.Update(input);
      text := text + input;
    }

    method Final() returns (digest: Text)
      requires Valid()
      modifies this, context, context.inp
      ensures digest == Hmac(transform, key, old(text))
    {
      hide PadKey, Md5.Md5, Fold, Tail, LowBits, HighBits;
      ghost var k := KeyOf(transform, key);
      digest := context.Final();
      ghost var inner := digest;
      context := new Md5.Context(transform);
      context.Update(kOpad[..]);
      assert context.msg == PadKey(k, OPAD);
      context.Update(digest);
      assert context.msg == PadKey(k, OPAD) + inner && inner == Md5.Md5(transform, PadKey(k, IPAD) + text);
      digest := context.Final();
    }
  }

  // One call, or any cut of the input into pieces.
  method Authenticate(transform: Transform, key: Text, pieces: seq<Text>) returns (digest: Text)
    requires KeepsSize(transform, Md5.WORDS) && |key| < WORD && forall i :: 0 <= i < |pieces| ==> |pieces[i]| < WORD
    ensures digest == Hmac(transform, key, Join(pieces))
  {
    hide KeepsSize, Hmac;
    var c := new Context(transform, key);
    for i := 0 to |pieces|
      invariant c.Valid() && c.transform == transform && c.key == key && fresh(c) && fresh(c.context) && fresh(c.context.inp)
      invariant c.text == Join(pieces[..i])
    {
      c.Update(pieces[i]);
      assert pieces[..i + 1][..i] == pieces[..i];
    }
    assert pieces[..|pieces|] == pieces;
    digest := c.Final();
  }
}
