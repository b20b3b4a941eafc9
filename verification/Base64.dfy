/** Base64 (base64.c; sections 4 and 5 of RFC 4648). */
module Base64 {
  import opened Bytes

  type Text = seq<byte>

  const PADDING: byte := 61

  function EncodedLen(n: nat): nat { n * 4 / 3 + 3 }   // PJ_BASE256_TO_BASE64_LEN

  function DecodedLen(n: nat): nat { n * 3 / 4 }       // PJ_BASE64_TO_BASE256_LEN

  type digit = x: int | 0 <= x < 64

  function Alphabet(d: digit, url: bool): byte {
    if d < 26 then 65 + d else if d < 52 then 71 + d else if d < 62 then d - 4
    else if d == 62 then (if url then 45 else 43) else (if url then 95 else 47)
  }

  // The value of a character; -1 if it is not in the alphabet.
  function Value(c: byte, url: bool): (v: int)
    ensures -1 <= v < 64
  {
    if 65 <= c <= 90 then c - 65
    else if 97 <= c <= 122 then c - 97 + 26
    else if 48 <= c <= 57 then c - 48 + 52
    else if (!url && c == 43) || (url && c == 45) then 62
    else if (!url && c == 47) || (url && c == 95) then 63
    else -1
  }

  lemma ValueOfAlphabet(d: digit, url: bool)
    ensures Value(Alphabet(d, url), url) == d && Alphabet(d, url) != PADDING
  {}

  // Tables 1 and 2 of RFC 4648.
  lemma AlphabetIsTable(d: digit, url: bool)
    ensures Alphabet(d, url) ==
      if d < 26 then 'A' as int + d
      else if d < 52 then 'a' as int + d - 26
      else if d < 62 then '0' as int + d - 52
      else if d == 62 then (if url then '-' else '+') as int
      else (if url then '_' else '/') as int
  {}

  // The characters with a value are those of the alphabet.
  lemma ValueExactly(c: byte, url: bool, d: digit)
    ensures Value(c, url) == d <==> Alphabet(d, url) == c
  {
    ValueOfAlphabet(d, url);
  }

  // ---------------------------------------------------------------- digits

  // The digits that three bytes make.
  function D1(a: byte): digit { a / 4 }

  function D2(a: byte, b: byte): digit { (a as int) % 4 * 16 + b / 16 }

  function D3(b: byte, c: byte): digit { (b as int) % 16 * 4 + c / 64 }

  function D4(c: byte): digit { c % 64 }

  // The digits of a byte string, without padding.
  function ToDigits(x: Text): seq<digit> {
    if x == [] then []
    else if |x| == 1 then [D1(x[0]), D2(x[0], 0)]
    else if |x| == 2 then [D1(x[0]), D2(x[0], x[1]), D3(x[1], 0)]
    else [D1(x[0]), D2(x[0], x[1]), D3(x[1], x[2]), D4(x[2])] + ToDigits(x[3..])
  }

  // The bytes that four digits make.
  function First(a: int, b: int): byte
    requires 0 <= a < 64 && 0 <= b < 64
  {
    a * 4 + b / 16
  }

  function Second(b: int, c: int): byte
    requires 0 <= b < 64 && 0 <= c < 64
  {
    b % 16 * 16 + c / 4
  }

  function Third(c: int, d: int): byte
    requires 0 <= c < 64 && 0 <= d < 64
  {
    c % 4 * 64 + d
  }

  // The bytes of a digit string; one digit left over gives none.
  function ToBytes(ds: seq<digit>): Text {
    if |ds| < 2 then []
    else if |ds| == 2 then [First(ds[0], ds[1])]
    else if |ds| == 3 then [First(ds[0], ds[1]), Second(ds[1], ds[2])]
    else [First(ds[0], ds[1]), Second(ds[1], ds[2]), Third(ds[2], ds[3])] + ToBytes(ds[4..])
  }

  lemma {:induction false} BytesOfDigits(x: Text)
    ensures ToBytes(ToDigits(x)) == x
  {
    hide D1, D2, D3, D4, First, Second, Third;
    if x != [] { DigitsBack(x[0], if |x| > 1 then x[1] else 0, if |x| > 2 then x[2] else 0); }
    if |x| >= 3 {
      BytesOfDigits(x[3..]);
      assert ToDigits(x)[4..] == ToDigits(x[3..]);
      assert x == [x[0], x[1], x[2]] + x[3..];
    }
  }

  // Three bytes and their four digits are the same 24 bits.
  lemma SameBits(a: byte, b: byte, c: byte)
    ensures (D1(a) as int * 64 + D2(a, b)) * 4096 + D3(b, c) * 64 + D4(c) == (a as int * 256 + b) * 256 + c
  {}

  lemma DigitsBack(a: byte, b: byte, c: byte)
    ensures First(D1(a), D2(a, b)) == a && Second(D2(a, b), D3(b, c)) == b && Third(D3(b, c), D4(c)) == c
  {}

  function Chars(ds: seq<digit>, url: bool): (t: Text)
    ensures |t| == |ds|
  {
    seq<byte>(|ds|, i requires 0 <= i < |ds| => Alphabet(ds[i], url))
  }

  function Pads(n: nat): (t: Text)
    ensures forall i :: 0 <= i < |t| ==> t[i] == PADDING
  {
    if n % 3 == 0 then [] else if n % 3 == 1 then [PADDING, PADDING] else [PADDING]
  }

  function Encode(x: Text, url: bool): Text { Chars(ToDigits(x), url) + Pads(|x|) }

  // The encoding consists of groups of four; the last is filled up with '=', which stands nowhere else.
  lemma {:induction false} EncodedInGroups(x: Text, url: bool)
    ensures |Encode(x, url)| == (|x| + 2) / 3 * 4
    ensures var pads := if |x| % 3 == 0 then 0 else 3 - |x| % 3;
      forall i :: 0 <= i < |Encode(x, url)| ==> (Encode(x, url)[i] == '=' as int <==> i >= |Encode(x, url)| - pads)
  {
    DigitsLen(x);
    var ds := ToDigits(x);
    forall i | 0 <= i < |ds| ensures Chars(ds, url)[i] != PADDING { ValueOfAlphabet(ds[i], url); }
    hide ToDigits, Alphabet;
  }

  // The values of the characters that are in the alphabet.
  function Values(s: Text, url: bool): seq<digit> {
    if s == [] then []
    else Values(s[..|s| - 1], url) + if Value(s[|s| - 1], url) >= 0 then [Value(s[|s| - 1], url)] else []
  }

  function Strip(s: Text): (t: Text)
    ensures t <= s && (t != [] ==> t[|t| - 1] != PADDING)
  {
    if s != [] && s[|s| - 1] == PADDING then Strip(s[..|s| - 1]) else s
  }

  predicate EndsInside(s: Text, url: bool) { s == [] || Value(s[|s| - 1], url) >= 0 }

  // All digits the decoder sees in a text without padding; a last character outside the
  // alphabet counts as a digit with all bits set.
  function Seen(t: Text, url: bool): seq<digit> {
    Values(t, url) + if EndsInside(t, url) then [] else [63]
  }

  function Decode(s: Text, url: bool): Text {
    ToBytes(Seen(Strip(s), url))
  }

  // ---------------------------------------------------------------- round trip

  lemma {:induction false} ValuesOfChars(ds: seq<digit>, url: bool)
    ensures Values(Chars(ds, url), url) == ds
    decreases |ds|
  {
    if ds != [] {
      var k := |ds| - 1;
      ValuesOfChars(ds[..k], url);
      ValueOfAlphabet(ds[k], url);
      assert Chars(ds, url)[..k] == Chars(ds[..k], url);
      assert ds == ds[..k] + [ds[k]];
    }
  }

  lemma {:induction false} StripPads(s: Text, p: Text)
    requires (s != [] ==> s[|s| - 1] != PADDING) && forall i :: 0 <= i < |p| ==> p[i] == PADDING
    ensures Strip(s + p) == s
    decreases |p|
  {
    if p == [] {
      assert s + p == s;
    } else {
      var k := |p| - 1;
      assert (s + p)[..|s + p| - 1] == s + p[..k];
      StripPads(s, p[..k]);
    }
  }

  lemma DecodeEncode(x: Text, url: bool)
    ensures Decode(Encode(x, url), url) == x
  {
    var ds := ToDigits(x);
    var s := Chars(ds, url);
    if ds != [] { ValueOfAlphabet(ds[|ds| - 1], url); }
    StripPads(s, Pads(|x|));
    ValuesOfChars(ds, url);
    BytesOfDigits(x);
    assert ds + [] == ds;
  }

  // ---------------------------------------------------------------- lengths

  lemma {:induction false} DigitsLen(x: Text)
    ensures |ToDigits(x)| + |Pads(|x|)| == 4 * ((|x| + 2) / 3)
  {
    if |x| >= 3 {
      DigitsLen(x[3..]);
      assert |x| % 3 == (|x| - 3) % 3;
    }
  }

  lemma EncodeFits(x: Text, url: bool)
    ensures |Encode(x, url)| == 4 * ((|x| + 2) / 3) <= EncodedLen(|x|)
  {
    DigitsLen(x);
  }

  lemma {:induction false} BytesLen(ds: seq<digit>)
    ensures |ToBytes(ds)| == DecodedLen(|ds|)
  {
    if |ds| >= 4 { BytesLen(ds[4..]); }
  }

  lemma {:induction false} ValuesLen(s: Text, url: bool)
    ensures |Values(s, url)| + (if EndsInside(s, url) then 0 else 1) <= |s|
  {
    if s != [] { ValuesLen(s[..|s| - 1], url); }
  }

  lemma DecodeFits(s: Text, url: bool)
    ensures |Decode(s, url)| <= DecodedLen(|Strip(s)|)
  {
    var t := Strip(s);
    ValuesLen(t, url);
    BytesLen(Values(t, url) + if EndsInside(t, url) then [] else [63]);
  }

  // ---------------------------------------------------------------- ignored characters

  // The characters of the alphabet in s.
  function Filter(s: Text, url: bool): Text {
    if s == [] then []
    else Filter(s[..|s| - 1], url) + if Value(s[|s| - 1], url) >= 0 then [s[|s| - 1]] else []
  }

  lemma {:induction false} FilterValues(s: Text, url: bool)
    ensures Values(Filter(s, url), url) == Values(s, url) && EndsInside(Filter(s, url), url)
    ensures Strip(Filter(s, url)) == Filter(s, url)
  {
    assert Value(PADDING, url) == -1;
    hide Value;
    if s != [] {
      var k := |s| - 1;
      FilterValues(s[..k], url);
      var f := Filter(s[..k], url);
      if Value(s[k], url) >= 0 {
        assert (f + [s[k]])[..|f|] == f;
      } else {
        assert f + [] == f;
      }
    }
  }

  lemma {:induction false} FilterStrip(s: Text, url: bool)
    ensures Filter(Strip(s), url) == Filter(s, url)
  {
    if s != [] && s[|s| - 1] == PADDING { FilterStrip(s[..|s| - 1], url); }
  }

  // Decoding ignores the characters outside the alphabet exactly when the last one, padding aside, is
  // inside, or the number of those inside is a multiple of four.
  lemma IgnoredExactly(s: Text, url: bool)
    ensures Decode(s, url) == Decode(Filter(s, url), url) <==>
      EndsInside(Strip(s), url) || |Filter(s, url)| % 4 == 0
  {
    var t := Strip(s);
    var ds := Values(t, url);
    FilterStrip(s, url);
    FilterValues(t, url);
    FilterLen(t, url);
    assert ds + [] == ds;
    BytesLen(ds);
    BytesLen(ds + [63]);
    if |ds| % 4 == 0 { LoneDigit(ds, 63); } else { FourThirds(|ds|); }
  }

  // For instance "A!" decodes to a byte, and "A" to none.
  lemma StrayEndCounts(url: bool)
    ensures Decode([65, 33], url) != Decode(Filter([65, 33], url), url)
  {
    var s: Text := [65, 33];
    assert s[..1] == [65] && s[..1][..0] == [];
    assert Filter([65], url) == [65];
    assert Filter(s, url) == [65] && Strip(s) == s;
    IgnoredExactly(s, url);
  }

  lemma {:induction false} FilterLen(s: Text, url: bool)
    ensures |Filter(s, url)| == |Values(s, url)|
  {
    if s != [] { FilterLen(s[..|s| - 1], url); }
  }

  lemma FourThirds(n: nat)
    requires n % 4 != 0
    ensures DecodedLen(n) != DecodedLen(n + 1)
  {}

  lemma {:induction false} LoneDigit(ds: seq<digit>, d: digit)
    requires |ds| % 4 == 0
    ensures ToBytes(ds + [d]) == ToBytes(ds)
    decreases |ds|
  {
    if ds != [] {
      assert (ds + [d])[4..] == ds[4..] + [d];
      LoneDigit(ds[4..], d);
    }
  }

  // ---------------------------------------------------------------- encoding loop

  lemma FirstDigits(x: Text)
    requires |x| >= 3
    ensures ToDigits(x) == [D1(x[0]), D2(x[0], x[1]), D3(x[1], x[2]), D4(x[2])] + ToDigits(x[3..])
  {}

  lemma {:induction false} ToDigitsAppend(x: Text, i: nat)
    requires i <= |x| && i % 3 == 0
    ensures ToDigits(x) == ToDigits(x[..i]) + ToDigits(x[i..])
    decreases i
  {
    if i > 0 {
      hide D1, D2, D3, D4, ToDigits;
      FirstDigits(x);
      FirstDigits(x[..i]);
      ToDigitsAppend(x[3..], i - 3);
      assert x[3..][..i - 3] == x[..i][3..] && x[3..][i - 3..] == x[i..];
      assert x[..i][0] == x[0] && x[..i][1] == x[1] && x[..i][2] == x[2];
    } else {
      assert x[..0] == [] && x[0..] == x;
    }
  }

  lemma CharsAppend(a: seq<digit>, b: seq<digit>, url: bool)
    ensures Chars(a + b, url) == Chars(a, url) + Chars(b, url)
  {}

  // base256to64
  function Block(c1: byte, c2: byte, c3: byte, padding: nat, url: bool): (b: Text)
    requires padding <= 2
    ensures |b| == 4
  {
    if padding == 0 then [Alphabet(D1(c1), url), Alphabet(D2(c1, c2), url), Alphabet(D3(c2, c3), url), Alphabet(D4(c3), url)]
    else if padding == 1 then [Alphabet(D1(c1), url), Alphabet(D2(c1, c2), url), Alphabet(D3(c2, c3), url), PADDING]
    else [Alphabet(D1(c1), url), Alphabet(D2(c1, c2), url), PADDING, PADDING]
  }

  lemma FourChars(a: digit, b: digit, c: digit, d: digit, url: bool)
    ensures Chars([a, b], url) == [Alphabet(a, url), Alphabet(b, url)]
    ensures Chars([a, b, c], url) == [Alphabet(a, url), Alphabet(b, url), Alphabet(c, url)]
    ensures Chars([a, b, c, d], url) == [Alphabet(a, url), Alphabet(b, url), Alphabet(c, url), Alphabet(d, url)]
  {
    hide Alphabet;
  }

  lemma LastDigits(a: byte, b: byte, c: byte)
    ensures ToDigits([a]) == [D1(a), D2(a, 0)]
    ensures ToDigits([a, b]) == [D1(a), D2(a, b), D3(b, 0)]
    ensures ToDigits([a, b, c]) == [D1(a), D2(a, b), D3(b, c), D4(c)]
  {
    hide D1, D2, D3, D4;
    assert [a, b, c][3..] == [];
  }

  lemma Joined(a: byte, b: byte, c: byte, d: byte)
    ensures [a, b, c] + [d] == [a, b, c, d] && [a, b] + [c, d] == [a, b, c, d]
  {}

  lemma WholeBlock(a: byte, b: byte, c: byte, url: bool)
    ensures Chars(ToDigits([a, b, c]), url) == Block(a, b, c, 0, url)
  {
    hide Alphabet, Chars, D1, D2, D3, D4, ToDigits;
    LastDigits(a, b, c);
    FourChars(D1(a), D2(a, b), D3(b, c), D4(c), url);
  }

  lemma PaddedBlocks(a: byte, b: byte, url: bool)
    ensures Chars(ToDigits([a, b]), url) + [PADDING] == Block(a, b, 0, 1, url)
    ensures Chars(ToDigits([a]), url) + [PADDING, PADDING] == Block(a, 0, 0, 2, url)
  {
    hide Alphabet, Chars, D1, D2, D3, D4, ToDigits;
    LastDigits(a, b, 0);
    FourChars(D1(a), D2(a, b), D3(b, 0), 0, url);
    FourChars(D1(a), D2(a, 0), 0, 0, url);
    Joined(Alphabet(D1(a), url), Alphabet(D2(a, b), url), Alphabet(D3(b, 0), url), PADDING);
    Joined(Alphabet(D1(a), url), Alphabet(D2(a, 0), url), PADDING, PADDING);
  }

  // One more whole block, or the last one.
  lemma EncodeBlock(x: Text, i: nat, url: bool)
    requires i < |x| && i % 3 == 0
    ensures i + 3 <= |x| ==> Chars(ToDigits(x[..i + 3]), url) == Chars(ToDigits(x[..i]), url) + Block(x[i], x[i + 1], x[i + 2], 0, url)
    ensures i + 2 == |x| ==> Encode(x, url) == Chars(ToDigits(x[..i]), url) + Block(x[i], x[i + 1], 0, 1, url)
    ensures i + 1 == |x| ==> Encode(x, url) == Chars(ToDigits(x[..i]), url) + Block(x[i], 0, 0, 2, url)
  {
    hide ToDigits, Chars, Block;
    var y := if i + 3 <= |x| then x[..i + 3] else x;
    ToDigitsAppend(y, i);
    assert y[..i] == x[..i];
    if i + 3 <= |x| {
      assert y[i..] == [x[i], x[i + 1], x[i + 2]];
      WholeBlock(x[i], x[i + 1], x[i + 2], url);
    } else {
      assert y[i..] == if i + 2 == |x| then [x[i], x[i + 1]] else [x[i]];
      PaddedBlocks(x[i], if i + 2 == |x| then x[i + 1] else 0, url);
    }
    CharsAppend(ToDigits(x[..i]), ToDigits(y[i..]), url);
    assert i + 2 == |x| ==> Pads(|x|) == [PADDING];
    assert i + 1 == |x| ==> Pads(|x|) == [PADDING, PADDING];
    var a, b := Chars(ToDigits(x[..i]), url), Chars(ToDigits(y[i..]), url);
    assert (a + b) + Pads(|x|) == a + (b + Pads(|x|));
  }

  datatype Status = TooSmall | Success(len: nat)

  method EncodeInto(input: Text, output: array<byte>, outLen: nat, url: bool) returns (r: Status)
    requires outLen <= output.Length
    modifies output
    ensures r.TooSmall? <==> outLen < |input| * 4 / 3 + 3
    ensures r.Success? ==> r.len == |Encode(input, url)| <= outLen && output[..r.len] == Encode(input, url)
  {
    hide Encode, ToDigits, Chars, Block;
    if outLen < EncodedLen(|input|) {
      return TooSmall;
    }
    EncodeFits(input, url);
    var i, po := 0, 0;
    NothingEncoded(input, url);
    while i < |input|
      invariant i <= |input| && i % 3 == 0 && po == 4 * (i / 3)
      invariant output[..po] == Chars(ToDigits(input[..i]), url)
    {
      EncodeBlock(input, i, url);
      if i + 1 == |input| {
        Write(output, po, Block(input[i], 0, 0, 2, url));
        return Success(po + 4);
      }
      if i + 2 == |input| {
        Write(output, po, Block(input[i], input[i + 1], 0, 1, url));
        return Success(po + 4);
      }
      Write(output, po, Block(input[i], input[i + 1], input[i + 2], 0, url));
      i, po := i + 3, po + 4;
    }
    AllEncoded(input, i, url);
    r := Success(po);
  }

  lemma NothingEncoded(x: Text, url: bool)
    ensures Chars(ToDigits(x[..0]), url) == []
  {}

  lemma AllEncoded(x: Text, i: nat, url: bool)
    requires i == |x| && i % 3 == 0
    ensures Encode(x, url) == Chars(ToDigits(x[..i]), url)
  {
    assert x[..i] == x;
  }

  // ---------------------------------------------------------------- decoding loop

  // The digits seen up to i; a last character outside the alphabet counts when it is reached.
  function SeenUpto(t: Text, i: nat, url: bool): seq<digit>
    requires i <= |t|
  {
    if i < |t| then Values(t[..i], url) else Seen(t, url)
  }

  lemma {:induction false} ToBytesAppend(a: seq<digit>, b: seq<digit>)
    requires |a| % 4 == 0
    ensures ToBytes(a + b) == ToBytes(a) + ToBytes(b)
    decreases |a|
  {
    if a == [] {
      assert a + b == b;
    } else {
      ToBytesAppend(a[4..], b);
      assert (a + b)[4..] == a[4..] + b;
    }
  }

  // The next character of the alphabet; -1 if there is none.
  method ReadValue(t: Text, i: nat, url: bool) returns (v: int, next: nat)
    requires i < |t|
    ensures i < next <= |t| && -1 <= v < 64 && (v < 0 ==> next == |t|) && v == Value(t[next - 1], url)
    ensures Values(t[..next], url) == Values(t[..i], url) + if v >= 0 then [v] else []
  {
    hide Value;
    v, next := Value(t[i], url), i + 1;
    assert t[..i + 1][..i] == t[..i];
    while v < 0 && next < |t|
      invariant i < next <= |t| && -1 <= v < 64 && v == Value(t[next - 1], url)
      invariant Values(t[..next], url) == Values(t[..i], url) + if v >= 0 then [v] else []
    {
      assert t[..next + 1][..next] == t[..next];
      v, next := Value(t[next], url), next + 1;
    }
  }

  // -1 has all bits set.
  function Mask(v: int): digit
    requires -1 <= v < 64
  {
    if v < 0 then 63 else v
  }

  // Up to four values.
  method ReadGroup(t: Text, start: nat, url: bool) returns (c: seq<digit>, i: nat)
    requires start < |t|
    ensures start < i <= |t| && 1 <= |c| <= 4 && (i < |t| ==> |c| == 4)
    ensures SeenUpto(t, i, url) == Values(t[..start], url) + c
  {
    hide Value, Values;
    c, i := [], start;
    ghost var before := Values(t[..start], url);
    assert before + [] == before;
    while |c| < 4 && i < |t|
      invariant start <= i <= |t| && |c| <= 4 && (|c| == 0 <==> i == start)
      invariant if i < |t| then Values(t[..i], url) == before + c else i == start || Seen(t, url) == before + c
      decreases |t| - i
    {
      ghost var had, j := c, i;
      var v;
      v, i := ReadValue(t, i, url);
      c := c + [Mask(v)];
      assert before + had + [Mask(v)] == before + c;
      if i == |t| {
        assert t[..i] == t;
        LastSeen(t, v, url, before + had);
      }
    }
  }

  lemma LastSeen(t: Text, v: int, url: bool, before: seq<digit>)
    requires t != [] && v == Value(t[|t| - 1], url) && Values(t, url) == before + if v >= 0 then [v] else []
    ensures Seen(t, url) == before + [Mask(v)]
  {
    hide Value, Values;
    if v >= 0 { assert Values(t, url) + [] == Values(t, url); } else { assert before + [] == before; }
  }

  method DecodeInto(input: Text, out: array<byte>, outLen: nat, url: bool) returns (r: Status)
    requires outLen <= out.Length
    modifies out
    ensures r.TooSmall? <==> outLen < |Strip(input)| * 3 / 4
    ensures r.Success? ==> r.len == |Decode(input, url)| <= outLen && out[..r.len] == Decode(input, url)
  {
    hide Values, ToBytes, Value, EndsInside;
    var len := |input|;
    assert input[..len] == input;
    while len > 0 && input[len - 1] == PADDING
      invariant len <= |input| && Strip(input[..len]) == Strip(input)
    {
      assert input[..len][..len - 1] == input[..len - 1];
      len := len - 1;
    }
    var t := input[..len];
    assert t == Strip(input);
    if outLen < DecodedLen(len) {
      return TooSmall;
    }
    DecodeFits(input, url);
    var i, j := 0, 0;
    NothingSeen(t, url);
    while i < |t|
      invariant i <= |t| && (i < |t| ==> |Values(t[..i], url)| % 4 == 0) && j <= outLen
      invariant j == |ToBytes(SeenUpto(t, i, url))| && out[..j] == ToBytes(SeenUpto(t, i, url))
      decreases |t| - i
    {
      ghost var before := Values(t[..i], url);
      var c;
      c, i := ReadGroup(t, i, url);
      ToBytesAppend(before, c);
      BytesPrefix(t, i, url);
      var bytes := GroupBytes(c);
      Write(out, j, bytes);
      j := j + |bytes|;
    }
    r := Success(j);
  }

  lemma NothingSeen(t: Text, url: bool)
    ensures ToBytes(SeenUpto(t, 0, url)) == [] && Values(t[..0], url) == []
  {}

  // What has been seen makes no more bytes than everything does.
  lemma BytesPrefix(t: Text, i: nat, url: bool)
    requires i <= |t|
    ensures |ToBytes(SeenUpto(t, i, url))| <= DecodedLen(|t|)
  {
    hide ToBytes, Values, Value;
    BytesLen(SeenUpto(t, i, url));
    ValuesLen(t[..i], url);
    ValuesLen(t, url);
  }

  // The bytes of one group.
  method GroupBytes(c: seq<digit>) returns (b: Text)
    requires 1 <= |c| <= 4
    ensures b == ToBytes(c)
  {
    hide First, Second, Third;
    b := [];
    if |c| > 1 {
      b := [First(c[0], c[1])];
      if |c| > 2 {
        b := b + [Second(c[1], c[2])];
        if |c| > 3 {
          b := b + [Third(c[2], c[3])];
        }
      }
    }
  }
}
