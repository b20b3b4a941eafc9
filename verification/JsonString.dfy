/** JSON strings (section 2.5 of RFC 4627): the chunked escaping writer of json.c, the quote finder of
    scanner.c and the unescaping reader of json.c. */
module JsonString {
  import opened Bytes
  import opened Options

  type Text = seq<byte>

  const QUOTE: byte := 34
  const BACKSLASH: byte := 92
  const NEWLINE: byte := 10
  const ESC_BUF_LEN := 64

  // ---------------------------------------------------------------- escaping

  // The letter after the backslash, for characters that have one.
  function ShortEscape(c: byte): (e: byte)
    ensures e == 0 || (e != NEWLINE && 32 < e < 127)
  {
    if c == QUOTE || c == BACKSLASH || c == 47 then c
    else if c == 8 then 98
    else if c == 12 then 102
    else if c == 10 then 110
    else if c == 13 then 114
    else if c == 9 then 116
    else 0
  }

  predicate Unescaped(c: byte) { ShortEscape(c) == 0 && 32 <= c < 127 }

  function HexDigit(v: nat): (d: byte)
    requires v < 16
    ensures 48 <= d <= 102
  {
    if v < 10 then 48 + v else 87 + v
  }

  function EscapeByte(c: byte): (e: Text)
    ensures 1 <= |e| <= 6 && (|e| == 1 <==> Unescaped(c))
  {
    if ShortEscape(c) != 0 then [BACKSLASH, ShortEscape(c)]
    else if 32 <= c < 127 then [c]
    else [BACKSLASH, 117, 48, 48, HexDigit(c / 16), HexDigit(c % 16)]
  }

  function Escape(s: Text): Text {
    if s == [] then [] else EscapeByte(s[0]) + Escape(s[1..])
  }

  lemma {:induction false} EscapeAppend(a: Text, b: Text)
    ensures Escape(a + b) == Escape(a) + Escape(b)
  {
    if a == [] {
      assert a + b == b;
    } else {
      hide EscapeByte;
      assert (a + b)[0] == a[0] && (a + b)[1..] == a[1..] + b;
      EscapeAppend(a[1..], b);
    }
  }

  lemma {:induction false} EscapePlain(s: Text)
    requires forall i :: 0 <= i < |s| ==> Unescaped(s[i])
    ensures Escape(s) == s && QUOTE !in s
  {
    if s != [] {
      EscapePlain(s[1..]);
      assert Unescaped(s[0]);
      assert s == [s[0]] + s[1..];
    }
  }

  // ---------------------------------------------------------------- unescaping

  function HexVal(c: byte): (v: nat)
    ensures v < 16
  {
    if c <= 57 then (c - 48) % 16 else if c <= 70 then (c - 65 + 10) % 16 else (c - 97 + 10) % 16
  }

  // What a one-letter escape stands for; 0 if it is none.
  function LetterValue(e: byte): byte {
    if e == QUOTE || e == BACKSLASH || e == 47 then e
    else if e == 98 then 8
    else if e == 102 then 12
    else if e == 110 then 10
    else if e == 114 then 13
    else if e == 116 then 9
    else 0
  }

  function Prepend(c: byte, r: Option<Text>): Option<Text> {
    if r.None? then None else Some([c] + r.value)
  }

  function Unescape(t: Text): Option<Text> {
    if t == [] then Some([])
    else if t[0] != BACKSLASH then Prepend(t[0], Unescape(t[1..]))
    else if |t| == 1 then None
    else if t[1] == 117 then
      if |t| < 6 then None else Prepend(HexVal(t[4]) * 16 + HexVal(t[5]), Unescape(t[6..]))
    else if LetterValue(t[1]) != 0 then Prepend(LetterValue(t[1]), Unescape(t[2..]))
    else None
  }

  lemma UnescapeShort(c: byte, rest: Text)
    requires ShortEscape(c) != 0
    ensures Unescape([BACKSLASH, ShortEscape(c)] + rest) == Prepend(c, Unescape(rest))
  {
    var t := [BACKSLASH, ShortEscape(c)] + rest;
    assert t[0] == BACKSLASH && t[1] == ShortEscape(c) && t[2..] == rest && LetterValue(t[1]) == c;
  }

  lemma UnescapeHex(c: byte, rest: Text)
    ensures Unescape([BACKSLASH, 117, 48, 48, HexDigit(c / 16), HexDigit(c % 16)] + rest) == Prepend(c, Unescape(rest))
  {
    var t := [BACKSLASH, 117, 48, 48, HexDigit(c / 16), HexDigit(c % 16)] + rest;
    assert t[0] == BACKSLASH && t[1] == 117 && t[4] == HexDigit(c / 16) && t[5] == HexDigit(c % 16) && t[6..] == rest;
    HexBack(c / 16);
    HexBack(c % 16);
  }

  lemma HexBack(v: nat)
    requires v < 16
    ensures HexVal(HexDigit(v)) == v
  {}

  lemma UnescapeByte(c: byte, rest: Text)
    ensures Unescape(EscapeByte(c) + rest) == Prepend(c, Unescape(rest))
  {
    if ShortEscape(c) != 0 {
      hide Unescape;
      UnescapeShort(c, rest);
    } else if 32 <= c < 127 {
      assert ([c] + rest)[0] == c && ([c] + rest)[1..] == rest;
    } else {
      hide Unescape;
      UnescapeHex(c, rest);
    }
  }

  // Unescaping undoes escaping, for every byte string.
  lemma {:induction false} UnescapeEscape(s: Text)
    ensures Unescape(Escape(s)) == Some(s)
  {
    if s != [] {
      UnescapeByte(s[0], Escape(s[1..]));
      UnescapeEscape(s[1..]);
      assert s == [s[0]] + s[1..];
    }
  }

  lemma {:induction false} UnescapePlain(t: Text)
    requires BACKSLASH !in t
    ensures Unescape(t) == Some(t)
  {
    if t != [] {
      UnescapePlain(t[1..]);
      assert t == [t[0]] + t[1..];
    }
  }

  // ---------------------------------------------------------------- finding the closing quote

  // Reading escapes from left to right: the first quote that no backslash escapes, on the same line.
  function EndQuote(buf: Text, p: nat): (r: Option<nat>)
    ensures r.Some? ==> p <= r.value < |buf| && buf[r.value] == QUOTE
    decreases |buf| - p
  {
    if p >= |buf| || buf[p] == NEWLINE then None
    else if buf[p] == QUOTE then Some(p)
    else if buf[p] == BACKSLASH then
      if p + 1 < |buf| && buf[p + 1] != NEWLINE then EndQuote(buf, p + 2) else None
    else EndQuote(buf, p + 1)
  }

  // Backslashes immediately before p, not counting any before start.
  function Backslashes(buf: Text, start: nat, p: nat): nat
    requires start <= p <= |buf|
  {
    if p > start && buf[p - 1] == BACKSLASH then Backslashes(buf, start, p - 1) + 1 else 0
  }

  // p is a position at which a left-to-right reader that began at start reads a new character.
  predicate Fresh(buf: Text, start: nat, p: nat)
    requires start <= p <= |buf|
  {
    Backslashes(buf, start, p) % 2 == 0
  }

  // The search of pj_scan_get_quotes, with its backward count of backslashes.
  method FindEndQuote(buf: Text, start: nat) returns (r: Option<nat>)
    requires start <= |buf|
    ensures r == EndQuote(buf, start)
  {
    var s := start;
    while true
      invariant start <= s <= |buf|
      invariant EndQuote(buf, start) == EndFrom(buf, start, s)
      decreases |buf| - s
    {
      while s < |buf| && buf[s] != NEWLINE && buf[s] != QUOTE
        invariant start <= s <= |buf|
        invariant EndQuote(buf, start) == EndFrom(buf, start, s)
      {
        s := s + 1;
      }
      if s == |buf| || buf[s] != QUOTE {
        return None;
      }
      var n, q := 0, s;
      while q > start && buf[q - 1] == BACKSLASH
        invariant start <= q <= s && n + Backslashes(buf, start, q) == Backslashes(buf, start, s)
      {
        q, n := q - 1, n + 1;
      }
      if n % 2 == 0 {
        return Some(s);
      }
      s := s + 1;
    }
  }


  // The reader's answer from s: a character after an odd number of backslashes is skipped.
  ghost function EndFrom(buf: Text, start: nat, s: nat): Option<nat>
    requires start <= s <= |buf|
  {
    if Fresh(buf, start, s) then EndQuote(buf, s)
    else if s < |buf| && buf[s] != NEWLINE then EndQuote(buf, s + 1)
    else None
  }

  // Reading past one escaped character.
  lemma EndQuoteByte(buf: Text, p: nat, c: byte)
    requires At(buf, p, EscapeByte(c))
    ensures EndQuote(buf, p) == EndQuote(buf, p + |EscapeByte(c)|)
  {
    var e := EscapeByte(c);
    assert buf[p] == e[0];
    if |e| > 1 { assert buf[p + 1] == e[1]; }
    if |e| > 2 {
      assert buf[p + 2] == e[2] && buf[p + 3] == e[3] && buf[p + 4] == e[4] && buf[p + 5] == e[5];
      assert EndQuote(buf, p) == EndQuote(buf, p + 2) == EndQuote(buf, p + 3) == EndQuote(buf, p + 4) == EndQuote(buf, p + 5);
    }
  }

  lemma EndQuoteHere(buf: Text, p: nat)
    requires At(buf, p, [QUOTE])
    ensures EndQuote(buf, p) == Some(p)
  {
    assert buf[p] == [QUOTE][0];
  }

  // The quote that follows an escaped string is its closing quote.
  lemma {:induction false} EndQuoteEscape(buf: Text, p: nat, s: Text)
    requires At(buf, p, Escape(s) + [QUOTE])
    ensures EndQuote(buf, p) == Some(p + |Escape(s)|)
    decreases |s|
  {
    hide EscapeByte, EndQuote;
    AtSplit(buf, p, Escape(s), [QUOTE]);
    if s == [] {
      EndQuoteHere(buf, p);
    } else {
      var e := EscapeByte(s[0]);
      assert Escape(s) == e + Escape(s[1..]);
      hide Escape;
      assert (e + Escape(s[1..])) + [QUOTE] == e + (Escape(s[1..]) + [QUOTE]);
      AtSplit(buf, p, e, Escape(s[1..]) + [QUOTE]);
      EndQuoteByte(buf, p, s[0]);
      EndQuoteEscape(buf, p + |e|, s[1..]);
    }
  }

  // ---------------------------------------------------------------- the loops

  // Fill the chunk buffer with whole escapes, as many as fit.
  method FillChunk(s: Text, start: nat, buf: array<byte>) returns (op: nat, ip: nat)
    requires start < |s| && buf.Length == ESC_BUF_LEN
    modifies buf
    ensures start < ip <= |s| && op <= ESC_BUF_LEN && buf[..op] == Escape(s[start..ip])
  {
    op, ip := 0, start;
    while ip != |s| && op != ESC_BUF_LEN
      invariant start <= ip <= |s| && op <= ESC_BUF_LEN && (op == 0 <==> ip == start)
      invariant buf[..op] == Escape(s[start..ip])
      decreases |s| - ip
    {
      if ESC_BUF_LEN - op < 2 {
        break;
      }
      var c := s[ip];
      EscapeNext(s, start, ip);
      var e: Text;
      if ShortEscape(c) != 0 {
        e := [BACKSLASH, ShortEscape(c)];
      } else if 32 <= c < 127 {
        e := [c];
      } else {
        if ESC_BUF_LEN - op < 6 {
          break;
        }
        e := [BACKSLASH, 117, 48, 48, HexDigit(c / 16), HexDigit(c % 16)];
      }
      Write(buf, op, e);
      ip, op := ip + 1, op + |e|;
    }
  }

  lemma EscapeNext(s: Text, start: nat, ip: nat)
    requires start <= ip < |s|
    ensures Escape(s[start..ip + 1]) == Escape(s[start..ip]) + EscapeByte(s[ip])
  {
    assert s[start..ip + 1] == s[start..ip] + [s[ip]];
    EscapeAppend(s[start..ip], [s[ip]]);
    assert Escape([s[ip]]) == EscapeByte(s[ip]) + Escape([]) == EscapeByte(s[ip]);
  }

  // The reading loop of parse_quoted_string over the text between the quotes.
  method UnescapeToken(t: Text) returns (r: Option<Text>)
    ensures r == Unescape(t)
  {
    var out: Text, ip := [], 0;
    assert t[0..] == t;
    JoinedNone(Unescape(t));
    while ip != |t|
      invariant ip <= |t|
      invariant Unescape(t) == Joined(out, Unescape(t[ip..]))
      decreases |t| - ip
    {
      ghost var rest, done := t[ip..], out;
      if t[ip] == BACKSLASH {
        ip := ip + 1;
        if ip == |t| {
          return None;
        }
        if t[ip] == 117 {
          ip := ip + 1;
          if |t| - ip < 4 {
            return None;
          }
          out := out + [HexVal(t[ip + 2]) * 16 + HexVal(t[ip + 3])];
          ip := ip + 4;
          assert rest[6..] == t[ip..];
          JoinedNext(done, out[|done|], Unescape(t[ip..]));
        } else if LetterValue(t[ip]) != 0 {
          out := out + [LetterValue(t[ip])];
          ip := ip + 1;
          assert rest[2..] == t[ip..];
          JoinedNext(done, out[|done|], Unescape(t[ip..]));
        } else {
          return None;
        }
      } else {
        out := out + [t[ip]];
        ip := ip + 1;
        assert rest[1..] == t[ip..];
        JoinedNext(done, out[|done|], Unescape(t[ip..]));
      }
    }
    assert out + [] == out;
    r := Some(out);
  }

  lemma JoinedNone(r: Option<Text>)
    ensures Joined([], r) == r
  {
    assert r.Some? ==> [] + r.value == r.value;
  }

  lemma JoinedNext(a: Text, c: byte, r: Option<Text>)
    ensures Joined(a, Prepend(c, r)) == Joined(a + [c], r)
  {
    assert r.Some? ==> a + ([c] + r.value) == (a + [c]) + r.value;
  }

  ghost function Joined(a: Text, r: Option<Text>): Option<Text> {
    if r.None? then None else Some(a + r.value)
  }
}
