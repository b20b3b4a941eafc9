/** Reading back what was written: exactly which trees come back unchanged. */
module JsonRoundTrip {
  import opened Bytes
  import opened Options
  import opened JsonString
  import opened JsonTree

  // ---------------------------------------------------------------- which trees

  // Written without escapes and not starting with a space.
  predicate Plain(s: Text) {
    s != [] && (forall i :: 0 <= i < |s| ==> Unescaped(s[i])) && s[0] != SPACE
  }

  // Names are plain or missing, strings without a name are plain, and items of arrays have no name.
  predicate Survives(t: Elem)
    decreases t
  {
    && (t.name == [] || Plain(t.name))
    && match t.value
       case VStr(s) => t.name != [] || Plain(s)
       case VArr(items) => forall i :: 0 <= i < |items| ==> items[i].name == [] && Survives(items[i])
       case VObj(members) => forall i :: 0 <= i < |members| ==> Survives(members[i])
       case _ => true
  }

  predicate SurvivesIn(t: Elem, noName: bool) { (noName ==> t.name == []) && Survives(t) }

  predicate AllSurvive(list: seq<Elem>, noName: bool) { forall i :: 0 <= i < |list| ==> SurvivesIn(list[i], noName) }

  // ---------------------------------------------------------------- white space

  predicate AllSpace(s: Text) { forall i :: 0 <= i < |s| ==> IsSpace(s[i]) }

  lemma {:induction false} SkipPast(buf: Text, p: nat, ws: Text)
    requires At(buf, p, ws) && AllSpace(ws)
    ensures SkipWs(buf, p) == SkipWs(buf, p + |ws|)
    decreases |ws|
  {
    if ws != [] {
      assert buf[p] == ws[0];
      assert ws == [ws[0]] + ws[1..];
      AtSplit(buf, p, [ws[0]], ws[1..]);
      SkipPast(buf, p + 1, ws[1..]);
    }
  }

  lemma SkipNothing(buf: Text, p: nat)
    requires p < |buf| && !IsSpace(buf[p])
    ensures SkipWs(buf, p) == p
  {}

  // ---------------------------------------------------------------- quoted tokens without unescaping

  lemma {:induction false} EscapeQuote(s: Text)
    requires QUOTE !in s
    ensures QUOTE !in Escape(s)
  {
    if s != [] {
      EscapeQuote(s[1..]);
      EscapeByteQuote(s[0]);
    }
  }

  lemma EscapeByteQuote(c: byte)
    requires c != QUOTE
    ensures QUOTE !in EscapeByte(c)
  {
    if c == 13 || c == 9 || c == 8 || c == 10 || c == 12 || c == BACKSLASH || c == 47 {
    } else if !(32 <= c < 127) {
      assert HexDigit(c / 16) != QUOTE && HexDigit(c % 16) != QUOTE;
    }
  }

  // Only text that needs no escape keeps its length.
  lemma {:induction false} EscapeLonger(s: Text)
    ensures |Escape(s)| >= |s|
    ensures |Escape(s)| == |s| ==> Escape(s) == s && forall i :: 0 <= i < |s| ==> Unescaped(s[i])
  {
    if s != [] {
      EscapeLonger(s[1..]);
      if |Escape(s)| == |s| {
        assert EscapeByte(s[0]) == [s[0]];
        assert s == [s[0]] + s[1..];
      }
    }
  }

  lemma EscapeHead(s: Text)
    requires s != []
    ensures Escape(s) != [] && (IsSpace(Escape(s)[0]) <==> s[0] == SPACE)
  {
    var e := EscapeByte(s[0]);
    assert Escape(s)[0] == e[0];
  }

  // The token the reader takes after an opening quote.
  function Token(buf: Text, p: nat): Text
    requires p <= |buf|
  {
    var p1 := SkipWs(buf, p);
    buf[p1..Until(buf, p1, QUOTE)]
  }

  lemma {:induction false} UntilIs(buf: Text, p: nat, s: Text)
    requires At(buf, p, s + [QUOTE]) && QUOTE !in s
    ensures p <= |buf| && Until(buf, p, QUOTE) == p + |s|
    decreases |s|
  {
    assert buf[p] == (s + [QUOTE])[0];
    if s != [] {
      assert s + [QUOTE] == [s[0]] + (s[1..] + [QUOTE]);
      AtSplit(buf, p, [s[0]], s[1..] + [QUOTE]);
      UntilIs(buf, p + 1, s[1..]);
    }
  }

  // It is the string that was written exactly when that is plain (or empty).
  lemma PlainToken(buf: Text, p: nat, s: Text)
    requires At(buf, p, Escape(s) + [QUOTE]) && Plain(s)
    ensures p <= |buf| && SkipWs(buf, p) == p && Until(buf, p, QUOTE) == p + |Escape(s)| && Token(buf, p) == s
  {
    hide Escape, Until, SkipWs;
    EscapePlain(s);
    AtSplit(buf, p, s, [QUOTE]);
    assert buf[p] == s[0] && Unescaped(s[0]);
    SkipNothing(buf, p);
    UntilIs(buf, p, s);
    AtText(buf, p, s);
  }

  lemma TokenIsPlain(buf: Text, p: nat, s: Text)
    requires At(buf, p, Escape(s) + [QUOTE]) && s != [] && p <= |buf| && Token(buf, p) == s
    ensures Plain(s)
  {
    var p1 := SkipWs(buf, p);
    var e := Escape(s);
    AtSplit(buf, p, e, [QUOTE]);
    EscapeHead(s);
    assert buf[p] == e[0] && s[0] == buf[p1];
    assert p1 == p;
    assert QUOTE !in s;
    EscapeQuote(s);
    UntilIs(buf, p, e);
    EscapeLonger(s);
  }

  // ---------------------------------------------------------------- elements

  predicate Delimiter(c: byte) { c == COMMA || c == RBRACKET || c == RBRACE }

  // After p comes, perhaps after white space, a comma or a closing bracket.
  ghost predicate Delimited(buf: Text, p: nat) {
    p <= |buf| && SkipWs(buf, p) < |buf| && Delimiter(buf[SkipWs(buf, p)])
  }

  // An element written at p is read from there; it comes back exactly when it survives, and the reader
  // then stands after it.
  ghost predicate Back<T>(buf: Text, r: Read<T>, t: T, good: bool, end: nat) {
    && (r.Ok? && r.value == t <==> good)
    && (good ==> r.pos == SkipWs(buf, end))
  }

  lemma WordBack(buf: Text, p: nat, name: Text, v: Value)
    requires (v.VNull? || v.VBool?) && At(buf, p, WriteValue(v, 0)) && p + 5 <= |buf|
    ensures ReadValue(buf, p, name) == Ok(Elem(name, v), SkipWs(buf, p + |WriteValue(v, 0)|))
  {
    var w := WriteValue(v, 0);
    AtText(buf, p, w);
    assert buf[p] == w[0];
    if |w| == 4 { assert buf[p..p + 5][0] == w[0]; }
  }

  lemma StringBack(buf: Text, p: nat, name: Text, s: Text)
    requires At(buf, p, Quoted(s))
    ensures ReadValue(buf, p, name) == Ok(Elem(name, VStr(s)), SkipWs(buf, p + |Quoted(s)|))
  {
    hide Escape, Unescape, EndQuote, SkipWs;
    var e := Escape(s);
    assert Quoted(s) == [QUOTE] + (e + [QUOTE]);
    AtSplit(buf, p, [QUOTE], e + [QUOTE]);
    assert buf[p] == [QUOTE][0];
    EndQuoteEscape(buf, p + 1, s);
    AtSplit(buf, p + 1, e, [QUOTE]);
    AtText(buf, p + 1, e);
    UnescapeEscape(s);
  }

  // An empty token is found only at the closing quote.
  lemma {:induction false} EmptyToken(buf: Text, p: nat, s: Text)
    requires At(buf, p, Escape(s) + [QUOTE])
    ensures var p1 := SkipWs(buf, p); p1 < |buf| && (buf[p1] == QUOTE ==> p1 == p + |Escape(s)|)
    decreases |s|
  {
    assert buf[p] == (Escape(s) + [QUOTE])[0];
    if s != [] {
      var e := EscapeByte(s[0]);
      assert buf[p] == e[0];
      if s[0] == SPACE {
        assert Escape(s) + [QUOTE] == e + (Escape(s[1..]) + [QUOTE]);
        AtSplit(buf, p, e, Escape(s[1..]) + [QUOTE]);
        EmptyToken(buf, p + 1, s[1..]);
      }
    }
  }

  lemma DelimiterFails(buf: Text, p: nat)
    requires p < |buf| && Delimiter(buf[p])
    ensures ReadValue(buf, p, []) == Fail
  {}

  lemma QuotedAt(buf: Text, p: nat, s: Text)
    requires At(buf, p, Quoted(s))
    ensures p < |buf| && buf[p] == QUOTE && At(buf, p + 1, Escape(s) + [QUOTE]) && |Quoted(s)| == |Escape(s)| + 2
  {
    hide Escape;
    assert Quoted(s) == [QUOTE] + (Escape(s) + [QUOTE]);
    AtSplit(buf, p, [QUOTE], Escape(s) + [QUOTE]);
    assert buf[p] == [QUOTE][0];
  }

  // An unnamed string.
  lemma LoneStringBack(buf: Text, p: nat, s: Text)
    requires At(buf, p, Quoted(s)) && Delimited(buf, p + |Quoted(s)|)
    ensures Back(buf, ReadElem(buf, p), Elem([], VStr(s)), Plain(s), p + |Quoted(s)|)
  {
    hide Escape, SkipWs, Until, ReadValue, Plain, Quoted, At;
    QuotedAt(buf, p, s);
    EmptyToken(buf, p + 1, s);
    if Plain(s) {
      PlainToken(buf, p + 1, s);
      PlainNotEmpty(s);
    } else {
      var p1 := SkipWs(buf, p + 1);
      if Token(buf, p + 1) == [] {
        if Until(buf, p1, QUOTE) < |buf| { DelimiterFails(buf, SkipWs(buf, p1 + 1)); }
      } else if Token(buf, p + 1) == s {
        TokenIsPlain(buf, p + 1, s);
      }
    }
  }

  lemma PlainNotEmpty(s: Text)
    requires Plain(s)
    ensures s != []
  {}

  // An element with a name.
  lemma NameBack(buf: Text, p: nat, name: Text)
    requires At(buf, p, WriteName(name)) && name != [] && p + |WriteName(name)| <= |buf|
    ensures var r := ReadElem(buf, p); var p4 := SkipWs(buf, p + |WriteName(name)|);
      if Plain(name) then r == ReadValue(buf, p4, name) else r.Fail? || r.value.name != name
  {
    hide Escape, SkipWs, Until, ReadValue, Plain, Quoted, At;
    var pad := [COLON, SPACE] + if |name| < NAME_MIN_LEN then Spaces(NAME_MIN_LEN - |name|) else [];
    AtSplit(buf, p, Quoted(name), pad);
    QuotedAt(buf, p, name);
    if Plain(name) {
      PlainToken(buf, p + 1, name);
      ColonAt(buf, p + |Quoted(name)|, pad);
    } else if Token(buf, p + 1) == name {
      TokenIsPlain(buf, p + 1, name);
    }
  }

  lemma ColonAt(buf: Text, p: nat, pad: Text)
    requires At(buf, p, pad) && pad != [] && pad[0] == COLON && AllSpace(pad[1..])
    ensures p < |buf| && buf[p] == COLON && SkipWs(buf, p) == p && SkipWs(buf, p + 1) == SkipWs(buf, p + |pad|)
  {
    assert pad == [COLON] + pad[1..];
    AtSplit(buf, p, [COLON], pad[1..]);
    assert buf[p] == [COLON][0];
    SkipPast(buf, p + 1, pad[1..]);
  }

  // ---------------------------------------------------------------- trees

  predicate ValueSurvives(v: Value) {
    (v.VArr? ==> AllSurvive(v.items, true)) && (v.VObj? ==> AllSurvive(v.members, false))
  }

  lemma SurvivesMeans(t: Elem)
    ensures Survives(t) <==> (t.name == [] || Plain(t.name)) && (t.value.VStr? && t.name == [] ==> Plain(t.value.str)) && ValueSurvives(t.value)
  {}

  // ---------------------------------------------------------------- names that are not written

  // No backslash comes before the first quote.
  predicate Clean(t: Text) {
    t == [] || t[0] == QUOTE || (t[0] != BACKSLASH && Clean(t[1..]))
  }

  lemma {:induction false} CleanAppend(a: Text, b: Text)
    requires Clean(a) && Clean(b)
    ensures Clean(a + b)
  {
    if a == [] {
      assert a + b == b;
    } else {
      assert (a + b)[1..] == a[1..] + b;
      if a[0] != QUOTE { CleanAppend(a[1..], b); }
    }
  }

  lemma {:induction false} CleanWithout(t: Text)
    requires BACKSLASH !in t
    ensures Clean(t)
  {
    if t != [] { CleanWithout(t[1..]); }
  }

  lemma CleanQuoted(s: Text, more: Text)
    ensures Clean(Quoted(s) + more)
  {
    assert (Quoted(s) + more)[0] == QUOTE;
  }

  lemma CleanSpaces(n: nat)
    ensures Clean(Spaces(n))
  {
    CleanWithout(Spaces(n));
  }

  lemma CleanWords(v: Value)
    requires v.VNull? || v.VBool?
    ensures Clean(WriteValue(v, 0))
  {
    CleanWithout(WriteValue(v, 0));
  }

  // All that is written outside strings is clean.
  lemma {:induction false} CleanElem(t: Elem, indent: nat, noName: bool)
    requires NoNumbers(t.value)
    ensures Clean(WriteElem(t, indent, noName))
    decreases t
  {
    hide WriteValue, Quoted, Clean, NoNumbers;
    var w := WriteValue(t.value, indent);
    CleanValue(t.value, indent);
    if t.name == [] {
      assert WriteElem(t, indent, noName) == w by { assert [] + w == w; }
    } else {
      CleanSpaces(indent);
      if noName {
        CleanAppend(Spaces(indent), w);
        assert Spaces(indent) + [] == Spaces(indent);
      } else {
        var pad := [COLON, SPACE] + if |t.name| < NAME_MIN_LEN then Spaces(NAME_MIN_LEN - |t.name|) else [];
        CleanQuoted(t.name, pad);
        CleanAppend(Spaces(indent), WriteName(t.name));
        CleanAppend(Spaces(indent) + WriteName(t.name), w);
      }
    }
  }

  lemma {:induction false} CleanValue(v: Value, indent: nat)
    requires NoNumbers(v)
    ensures Clean(WriteValue(v, indent))
    decreases v
  {
    hide Quoted, Clean, WriteChildren;
    match v
    case VNull => CleanWords(v);
    case VBool(_) => CleanWords(v);
    case VStr(s) =>
      CleanQuoted(s, []);
      assert Quoted(s) + [] == Quoted(s);
    case VArr(items) =>
      CleanWithout([LBRACKET, SPACE]);
      CleanWithout([RBRACKET]);
      CleanChildren(items, indent, true);
      CleanAppend([LBRACKET, SPACE], WriteChildren(items, indent, true));
      CleanAppend([LBRACKET, SPACE] + WriteChildren(items, indent, true), [RBRACKET]);
    case VObj(members) =>
      CleanWithout([LBRACE, SPACE]);
      CleanWithout([RBRACE]);
      CleanChildren(members, indent, false);
      CleanAppend([LBRACE, SPACE], WriteChildren(members, indent, false));
      CleanAppend([LBRACE, SPACE] + WriteChildren(members, indent, false), [RBRACE]);
  }

  lemma {:induction false} CleanChildren(list: seq<Elem>, indent: nat, noName: bool)
    requires forall i :: 0 <= i < |list| ==> NoNumbers(list[i].value)
    ensures Clean(WriteChildren(list, indent, noName))
    decreases list, 1
  {
    hide NoNumbers, WriteList;
    if list != [] {
      if list[0].name == [] {
        CleanList(list, indent, noName, SPACE, []);
      } else {
        CleanSpaces(indent);
        CleanWithout([NEWLINE]);
        CleanAppend([NEWLINE], Spaces(indent));
        CleanList(list, Deeper(indent), noName, NEWLINE, [NEWLINE] + Spaces(indent));
        CleanAppend([NEWLINE], WriteList(list, Deeper(indent), noName, NEWLINE, [NEWLINE] + Spaces(indent)));
      }
    }
  }

  lemma {:induction false} CleanList(list: seq<Elem>, indent: nat, noName: bool, after: byte, tail: Text)
    requires list != [] && forall i :: 0 <= i < |list| ==> NoNumbers(list[i].value)
    requires Clean(tail) && after != BACKSLASH
    ensures Clean(WriteList(list, indent, noName, after, tail))
    decreases list, 0
  {
    hide NoNumbers, WriteElem, Clean;
    var e := WriteElem(list[0], indent, noName);
    CleanElem(list[0], indent, noName);
    if |list| == 1 {
      CleanAppend(e, tail);
    } else {
      var rest := WriteList(list[1..], indent, noName, after, tail);
      CleanList(list[1..], indent, noName, after, tail);
      CleanWithout([COMMA, after]);
      CleanAppend([COMMA, after], rest);
      CleanAppend(e, [COMMA, after] + rest);
    }
  }

  // From p on, the buffer is outside strings.
  ghost predicate Outside(buf: Text, p: nat) { p <= |buf| && Clean(buf[p..]) }

  lemma OutsideBefore(buf: Text, p: nat, w: Text)
    requires At(buf, p, w) && Clean(w) && Outside(buf, p + |w|)
    ensures Outside(buf, p)
  {
    AtText(buf, p, w);
    assert buf[p..] == w + buf[p + |w|..];
    hide Clean;
    CleanAppend(w, buf[p + |w|..]);
  }

  // A string that begins outside strings has neither backslashes nor quotes.
  lemma {:induction false} OutsideString(buf: Text, p: nat)
    requires Outside(buf, p)
    ensures var q := EndQuote(buf, p); q.Some? ==> BACKSLASH !in buf[p..q.value] && QUOTE !in buf[p..q.value]
    decreases |buf| - p
  {
    if p < |buf| && buf[p] != QUOTE {
      assert buf[p..][0] == buf[p] && buf[p..][1..] == buf[p + 1..];
      OutsideString(buf, p + 1);
      var q := EndQuote(buf, p);
      if q.Some? { assert buf[p..q.value] == [buf[p]] + buf[p + 1..q.value]; }
    }
  }

  // Every quote in an escaped string follows a backslash.
  lemma {:induction false} EscapedQuote(s: Text, i: nat)
    requires i < |Escape(s)| && Escape(s)[i] == QUOTE
    ensures i > 0 && Escape(s)[i - 1] == BACKSLASH
  {
    var e := EscapeByte(s[0]);
    EscapeByteQuoteAt(s[0]);
    if i >= |e| { EscapedQuote(s[1..], i - |e|); }
  }

  lemma EscapeByteQuoteAt(c: byte)
    ensures var e := EscapeByte(c); e[0] != QUOTE && forall i :: 0 < i < |e| && e[i] == QUOTE ==> e[i - 1] == BACKSLASH
  {
    if c != QUOTE { EscapeByteQuote(c); assert EscapeByte(c)[0] in EscapeByte(c); }
  }

  // Skipped characters are white space.
  lemma {:induction false} SkippedAreSpaces(buf: Text, p: nat, i: nat)
    requires p <= i < SkipWs(buf, p) && i < |buf|
    ensures IsSpace(buf[i])
    decreases |buf| - p
  {
    if i > p { SkippedAreSpaces(buf, p + 1, i); }
  }

  // Skipping stops at the latest at a character that is not white space.
  lemma {:induction false} SkipStops(buf: Text, p: nat, e: nat)
    requires p <= e < |buf| && !IsSpace(buf[e])
    ensures SkipWs(buf, p) <= e
    decreases e - p
  {
    if p < e { SkipStops(buf, p + 1, e); }
  }

  // Only a quoted value is read as a string.
  lemma StringValueIsQuoted(buf: Text, p: nat, name: Text)
    requires p <= |buf|
    ensures var r := ReadValue(buf, p, name); r.Ok? && r.value.value.VStr? ==>
      && Peek(buf, p) == QUOTE && EndQuote(buf, p + 1).Some?
      && Unescape(buf[p + 1..EndQuote(buf, p + 1).value]) == Some(r.value.value.str)
  {
    hide ReadChildren, EndQuote, Unescape, SkipWs;
  }

  // The first quote at or after p in the written string, when it is not the closing one.
  lemma InnerQuote(buf: Text, p: nat, s: Text, i: nat)
    requires At(buf, p, Escape(s) + [QUOTE]) && p <= i < p + |Escape(s)| && buf[i] == QUOTE
    ensures QUOTE in s && i > p && buf[i - 1] == BACKSLASH
  {
    var e := Escape(s);
    AtSplit(buf, p, e, [QUOTE]);
    assert e[i - p] == QUOTE;
    EscapedQuote(s, i - p);
    assert buf[p + (i - p - 1)] == e[i - p - 1];
    if QUOTE !in s { EscapeQuote(s); }
  }

  // A string item that has a name is written without it and does not come back: the reader finds no
  // name, or takes the text before an escaped quote for one and then not the right string.
  lemma NamedStringItem(buf: Text, p: nat, name: Text, s: Text)
    requires name != [] && At(buf, p, Quoted(s)) && Delimited(buf, p + |Quoted(s)|) && Outside(buf, p + |Quoted(s)|)
    ensures var r := ReadElem(buf, p); r.Ok? ==> r.value != Elem(name, VStr(s))
  {
    hide Escape, Until, ReadValue, Quoted, Unescape, EndQuote, Clean;
    QuotedAt(buf, p, s);
    var end := p + 1 + |Escape(s)|;
    AtSplit(buf, p + 1, Escape(s), [QUOTE]);
    assert buf[end] == [QUOTE][0];
    SkipStops(buf, p + 1, end);
    var p1 := SkipWs(buf, p + 1);
    UntilStops(buf, p1, end);
    var p2 := Until(buf, p1, QUOTE);
    var p3 := SkipWs(buf, p2 + 1);
    if Peek(buf, p3) == COLON {
      ColonInside(buf, p, s, p2, end);
      NotTheString(buf, p, s, SkipWs(buf, p3 + 1), end, buf[p1..p2]);
    }
  }

  lemma {:induction false} UntilStops(buf: Text, p: nat, e: nat)
    requires p <= e < |buf| && buf[e] == QUOTE
    ensures Until(buf, p, QUOTE) <= e
    decreases e - p
  {
    if p < e { UntilStops(buf, p + 1, e); }
  }

  // A colon after the token means that the token ended inside the string.
  lemma ColonInside(buf: Text, p: nat, s: Text, p2: nat, end: nat)
    requires end == p + 1 + |Escape(s)| < |buf| && buf[end] == QUOTE && Delimited(buf, end + 1)
    requires At(buf, p + 1, Escape(s) + [QUOTE]) && p < p2 <= end && buf[p2] == QUOTE
    requires Peek(buf, SkipWs(buf, p2 + 1)) == COLON
    ensures QUOTE in s && SkipWs(buf, p2 + 1) < end
  {
    hide Escape, SkipWs;
    if p2 < end {
      InnerQuote(buf, p + 1, s, p2);
      SkipStops(buf, p2 + 1, end);
    }
  }

  lemma NotTheString(buf: Text, p: nat, s: Text, p4: nat, end: nat, token: Text)
    requires end == p + 1 + |Escape(s)| < |buf| && buf[end] == QUOTE && Outside(buf, end + 1) && QUOTE in s
    requires At(buf, p + 1, Escape(s) + [QUOTE])
    requires exists p3 :: p < p3 < end && buf[p3] == COLON && p4 == SkipWs(buf, p3 + 1)
    ensures p4 <= |buf| && (ReadValue(buf, p4, token).Ok? ==> ReadValue(buf, p4, token).value.value != VStr(s))
  {
    hide Escape, ReadValue, Unescape, EndQuote, Clean;
    var p3 :| p < p3 < end && buf[p3] == COLON && p4 == SkipWs(buf, p3 + 1);
    SkipStops(buf, p3 + 1, end);
    StringValueIsQuoted(buf, p4, token);
    var r := ReadValue(buf, p4, token);
    if r.Ok? && r.value.value.VStr? {
      if p4 < end {
        InnerQuote(buf, p + 1, s, p4);
        if p4 - 1 > p3 { SkippedAreSpaces(buf, p3 + 1, p4 - 1); }
      } else {
        OutsideString(buf, end + 1);
        UnescapePlain(buf[end + 1..EndQuote(buf, end + 1).value]);
      }
    }
  }

  // ---------------------------------------------------------------- elements and lists

  predicate StartChar(c: byte) { c == QUOTE || c == 110 || c == 116 || c == 102 || c == LBRACKET || c == LBRACE }

  lemma ValueStart(buf: Text, p: nat, v: Value, indent: nat)
    requires NoNumbers(v) && At(buf, p, WriteValue(v, indent))
    ensures p < |buf| && StartChar(buf[p]) && SkipWs(buf, p) == p && (buf[p] == QUOTE <==> v.VStr?)
  {
    var w := WriteValue(v, indent);
    assert |w| >= 2 && StartChar(w[0]) && (w[0] == QUOTE <==> v.VStr?);
    assert buf[p] == w[0];
  }

  // The parts of a written element with a name.
  lemma NamedParts(buf: Text, q: nat, t: Elem, indent: nat)
    requires NoNumbers(t.value) && t.name != [] && At(buf, q, WriteElem(t, indent, false))
    ensures var p := q + indent; var p4 := p + |WriteName(t.name)|;
      && At(buf, p, WriteName(t.name)) && At(buf, p4, WriteValue(t.value, indent))
      && p < |buf| && buf[p] == QUOTE && SkipWs(buf, q) == p && p4 <= |buf|
      && p4 + |WriteValue(t.value, indent)| == q + |WriteElem(t, indent, false)|
  {
    hide WriteName, WriteValue, SkipWs, At;
    var n, w := WriteName(t.name), WriteValue(t.value, indent);
    AtSplit(buf, q, Spaces(indent) + n, w);
    AtSplit(buf, q, Spaces(indent), n);
    SkipPast(buf, q, Spaces(indent));
    NameStart(buf, q + indent, t.name);
    AtEnds(buf, q, Spaces(indent) + n);
    SkipNothing(buf, q + indent);
  }

  lemma NameStart(buf: Text, p: nat, name: Text)
    requires At(buf, p, WriteName(name))
    ensures p < |buf| && buf[p] == QUOTE
  {
    hide Escape, Quoted;
    AtSplit(buf, p, Quoted(name), [COLON, SPACE] + if |name| < NAME_MIN_LEN then Spaces(NAME_MIN_LEN - |name|) else []);
    QuotedAt(buf, p, name);
  }

  // An item of an array that has a name is written as its value after the indent.
  lemma HiddenName(buf: Text, q: nat, t: Elem, indent: nat)
    requires NoNumbers(t.value) && t.name != [] && At(buf, q, WriteElem(t, indent, true))
    ensures At(buf, q + indent, WriteValue(t.value, indent)) && SkipWs(buf, q) == q + indent < |buf|
    ensures |WriteElem(t, indent, true)| == indent + |WriteValue(t.value, indent)|
  {
    hide WriteValue, SkipWs, At, NoNumbers;
    var w := WriteValue(t.value, indent);
    assert Spaces(indent) + [] == Spaces(indent);
    AtSplit(buf, q, Spaces(indent), w);
    SkipPast(buf, q, Spaces(indent));
    ValueStart(buf, q + indent, t.value, indent);
  }

  lemma ElemStart(buf: Text, q: nat, t: Elem, indent: nat, noName: bool)
    requires NoNumbers(t.value) && At(buf, q, WriteElem(t, indent, noName))
    ensures SkipWs(buf, q) < |buf| && StartChar(buf[SkipWs(buf, q)])
  {
    hide WriteName, WriteValue, At, SkipWs, NoNumbers;
    if t.name == [] {
      assert WriteElem(t, indent, noName) == WriteValue(t.value, indent);
      ValueStart(buf, q, t.value, indent);
    } else if noName {
      HiddenName(buf, q, t, indent);
      ValueStart(buf, q + indent, t.value, indent);
    } else {
      NamedParts(buf, q, t, indent);
    }
  }

  // A word is followed by at least one more byte.
  ghost predicate Followed(buf: Text, v: Value, end: nat) {
    v.VArr? || v.VObj? || Delimited(buf, end)
  }

  lemma FollowedEnds(buf: Text, v: Value, end: nat)
    requires Followed(buf, v, end) && !v.VArr? && !v.VObj?
    ensures end < |buf|
  {}

  lemma {:induction false} ElemBack(buf: Text, q: nat, t: Elem, indent: nat, noName: bool)
    requires NoNumbers(t.value) && At(buf, q, WriteElem(t, indent, noName))
    requires Followed(buf, t.value, q + |WriteElem(t, indent, noName)|) && Outside(buf, q + |WriteElem(t, indent, noName)|)
    ensures SkipWs(buf, q) <= |buf|
    ensures Back(buf, ReadElem(buf, SkipWs(buf, q)), t, SurvivesIn(t, noName), q + |WriteElem(t, indent, noName)|)
    decreases t, 1
  {
    hide WriteName, WriteValue, At, SkipWs, NoNumbers, Survives, ValueSurvives, Plain, ReadValue, Until, Followed, Quoted, Outside;
    SurvivesMeans(t);
    if t.name == [] {
      assert WriteElem(t, indent, noName) == WriteValue(t.value, indent);
      ValueStart(buf, q, t.value, indent);
      UnnamedBack(buf, q, t, indent);
    } else if noName {
      HiddenName(buf, q, t, indent);
      HiddenNameBack(buf, q + indent, t, indent);
    } else {
      NamedParts(buf, q, t, indent);
      var p4 := q + indent + |WriteName(t.name)|;
      NameBack(buf, q + indent, t.name);
      ValueStart(buf, p4, t.value, indent);
      ValueBack(buf, p4, t.name, t.value, indent);
    }
  }

  // An element with a name, written without it.
  lemma HiddenNameBack(buf: Text, p: nat, t: Elem, indent: nat)
    requires t.name != [] && NoNumbers(t.value) && At(buf, p, WriteValue(t.value, indent))
    requires Followed(buf, t.value, p + |WriteValue(t.value, indent)|) && Outside(buf, p + |WriteValue(t.value, indent)|)
    ensures p <= |buf| && (ReadElem(buf, p).Ok? ==> ReadElem(buf, p).value != t)
  {
    hide At, SkipWs, NoNumbers, ReadValue, Until, Quoted, WriteChildren, Outside;
    ValueStart(buf, p, t.value, indent);
    if t.value.VStr? { NamedStringItem(buf, p, t.name, t.value.str); }
  }

  lemma {:induction false} UnnamedBack(buf: Text, q: nat, t: Elem, indent: nat)
    requires t.name == [] && NoNumbers(t.value) && At(buf, q, WriteValue(t.value, indent))
    requires Followed(buf, t.value, q + |WriteValue(t.value, indent)|) && Outside(buf, q + |WriteValue(t.value, indent)|)
    ensures q <= |buf| && Back(buf, ReadElem(buf, q), t, Survives(t), q + |WriteValue(t.value, indent)|)
    decreases t, 0
  {
    hide At, SkipWs, NoNumbers, Survives, ValueSurvives, Plain, ReadValue, Until, Quoted, WriteChildren, Outside;
    SurvivesMeans(t);
    ValueStart(buf, q, t.value, indent);
    if t.value.VStr? {
      LoneStringBack(buf, q, t.value.str);
      assert ValueSurvives(t.value) by { NoChildren(t.value); }
    } else {
      ValueBack(buf, q, [], t.value, indent);
    }
  }

  lemma NoChildren(v: Value)
    requires !v.VArr? && !v.VObj?
    ensures ValueSurvives(v)
  {}

  lemma {:induction false} ValueBack(buf: Text, p: nat, name: Text, v: Value, indent: nat)
    requires NoNumbers(v) && At(buf, p, WriteValue(v, indent)) && p <= |buf|
    requires Followed(buf, v, p + |WriteValue(v, indent)|) && Outside(buf, p + |WriteValue(v, indent)|)
    ensures Back(buf, ReadValue(buf, p, name), Elem(name, v), ValueSurvives(v), p + |WriteValue(v, indent)|)
    decreases v, 1
  {
    hide At, SkipWs, ValueSurvives, ReadValue, Quoted, Followed, Outside;
    if v.VArr? || v.VObj? {
      ContainerBack(buf, p, name, v, indent);
    } else {
      NoChildren(v);
      FollowedEnds(buf, v, p + |WriteValue(v, indent)|);
      if v.VStr? { StringBack(buf, p, name, v.str); } else { WordBack(buf, p, name, v); }
    }
  }

  lemma OpenAt(buf: Text, p: nat, open: byte, w: Text)
    requires At(buf, p, [open, SPACE] + w)
    ensures p + 2 <= |buf| && buf[p] == open && SkipWs(buf, p + 1) == SkipWs(buf, p + 2) && At(buf, p + 2, w)
  {
    AtSplit(buf, p, [open, SPACE], w);
    assert buf[p] == [open, SPACE][0] && buf[p + 1] == [open, SPACE][1];
  }

  function Children(v: Value): seq<Elem>
    requires v.VArr? || v.VObj?
  {
    if v.VArr? then v.items else v.members
  }

  function Close(v: Value): byte { if v.VArr? then RBRACKET else RBRACE }

  // Reading a bracketed value is reading its children.
  lemma ReadBracket(buf: Text, p: nat, name: Text, v: Value)
    requires (v.VArr? || v.VObj?) && p < |buf| && buf[p] == if v.VArr? then LBRACKET else LBRACE
    ensures var list := ReadChildren(buf, SkipWs(buf, p + 1), Close(v)); var r := ReadValue(buf, p, name);
      && (r.Ok? && r.value == Elem(name, v) <==> list.Ok? && list.value == Children(v))
      && (r.Ok? ==> list.Ok? && r.pos == list.pos)
  {
    hide ReadChildren, SkipWs;
  }

  lemma ContainerParts(v: Value, indent: nat)
    requires (v.VArr? || v.VObj?) && NoNumbers(v)
    ensures (forall i :: 0 <= i < |Children(v)| ==> NoNumbers(Children(v)[i].value)) && (ValueSurvives(v) <==> AllSurvive(Children(v), v.VArr?))
    ensures WriteValue(v, indent) == [if v.VArr? then LBRACKET else LBRACE, SPACE] + WriteChildren(Children(v), indent, v.VArr?) + [Close(v)]
  {}

  lemma {:induction false} ContainerBack(buf: Text, p: nat, name: Text, v: Value, indent: nat)
    requires (v.VArr? || v.VObj?) && NoNumbers(v) && At(buf, p, WriteValue(v, indent)) && p <= |buf|
    requires Outside(buf, p + |WriteValue(v, indent)|)
    ensures Back(buf, ReadValue(buf, p, name), Elem(name, v), ValueSurvives(v), p + |WriteValue(v, indent)|)
    decreases v, 0
  {
    hide At, SkipWs, NoNumbers, ValueSurvives, ReadValue, WriteValue, ReadChildren, AllSurvive, WriteChildren, Outside;
    ContainerParts(v, indent);
    var list, noName, open := Children(v), v.VArr?, if v.VArr? then LBRACKET else LBRACE;
    var w := WriteChildren(list, indent, noName);
    assert [open, SPACE] + w + [Close(v)] == [open, SPACE] + (w + [Close(v)]);
    OpenAt(buf, p, open, w + [Close(v)]);
    ReadBracket(buf, p, name, v);
    ChildrenBack(buf, p + 2, list, indent, noName, Close(v));
  }

  lemma {:induction false} ChildrenBack(buf: Text, q: nat, list: seq<Elem>, indent: nat, noName: bool, close: byte)
    requires (close == RBRACKET || close == RBRACE) && q <= |buf| && forall i :: 0 <= i < |list| ==> NoNumbers(list[i].value)
    requires At(buf, q, WriteChildren(list, indent, noName) + [close]) && Outside(buf, q + |WriteChildren(list, indent, noName)| + 1)
    ensures Back(buf, ReadChildren(buf, SkipWs(buf, q), close), list, AllSurvive(list, noName), q + |WriteChildren(list, indent, noName)| + 1)
    decreases list, 3
  {
    hide At, NoNumbers, ReadElem, WriteList, AllSurvive, Outside;
    var w := WriteChildren(list, indent, noName);
    if list == [] {
      assert [] + [close] == [close];
      CloseAt(buf, q, [], close);
      assert AllSurvive(list, noName) by { NoneToSurvive(noName); }
    } else if list[0].name == [] {
      ListBack(buf, q, list, indent, noName, SPACE, [], close);
    } else {
      var tail := [NEWLINE] + Spaces(indent);
      var l := WriteList(list, Deeper(indent), noName, NEWLINE, tail);
      assert [NEWLINE] + l + [close] == [NEWLINE] + (l + [close]);
      AtSplit(buf, q, [NEWLINE], l + [close]);
      AtEnds(buf, q, [NEWLINE]);
      SkipPast(buf, q, [NEWLINE]);
      ListBack(buf, q + 1, list, Deeper(indent), noName, NEWLINE, tail, close);
    }
  }

  lemma NoneToSurvive(noName: bool)
    ensures AllSurvive([], noName)
  {}

  // White space and the closing bracket.
  lemma CloseAt(buf: Text, q: nat, tail: Text, close: byte)
    requires At(buf, q, tail + [close]) && AllSpace(tail) && (close == RBRACKET || close == RBRACE)
    ensures q + |tail| < |buf| && SkipWs(buf, q) == q + |tail| && buf[q + |tail|] == close
    ensures Delimited(buf, q) && ReadChildren(buf, q + |tail|, close) == Ok([], SkipWs(buf, q + |tail| + 1))
  {
    hide SkipWs;
    AtSplit(buf, q, tail, [close]);
    SkipPast(buf, q, tail);
    assert buf[q + |tail|] == [close][0];
    SkipNothing(buf, q + |tail|);
  }

  // A comma and one white-space character.
  lemma CommaAt(buf: Text, q: nat, after: byte, rest: Text, close: byte)
    requires At(buf, q, [COMMA, after] + rest) && IsSpace(after) && (close == RBRACKET || close == RBRACE)
    ensures q + 2 <= |buf| && At(buf, q + 2, rest) && SkipWs(buf, q) == q && Delimited(buf, q)
    ensures ReadChildren(buf, q, close) == ReadChildren(buf, SkipWs(buf, q + 2), close)
  {
    AtSplit(buf, q, [COMMA, after], rest);
    assert buf[q] == [COMMA, after][0] && buf[q + 1] == [COMMA, after][1];
    assert SkipWs(buf, q + 1) == SkipWs(buf, q + 2);
    hide SkipWs, ReadElem;
  }

  // The first child, and then the others.
  lemma ReadFirst(buf: Text, p: nat, close: byte, list: seq<Elem>)
    requires p < |buf| && StartChar(buf[p]) && (close == RBRACKET || close == RBRACE) && list != []
    ensures var r, e := ReadChildren(buf, p, close), ReadElem(buf, p);
      if e.Fail? || e.value != list[0] then r.Fail? || r.value != list
      else
        var rest := ReadChildren(buf, e.pos, close);
        && (r.Ok? && r.value == list <==> rest.Ok? && rest.value == list[1..])
        && (rest.Ok? ==> r.Ok? && r.pos == rest.pos)
  {
    hide ReadElem;
    var r, e := ReadChildren(buf, p, close), ReadElem(buf, p);
    if r.Ok? {
      var rest := ReadChildren(buf, e.pos, close).value;
      assert r.value[0] == e.value && r.value[1..] == rest;
      assert list == [list[0]] + list[1..];
    }
  }

  lemma AllSurviveStep(list: seq<Elem>, noName: bool)
    requires list != []
    ensures AllSurvive(list, noName) <==> SurvivesIn(list[0], noName) && AllSurvive(list[1..], noName)
  {
    assert list == [list[0]] + list[1..];
  }

  lemma {:induction false} ListBack(buf: Text, q: nat, list: seq<Elem>, indent: nat, noName: bool, after: byte, tail: Text, close: byte)
    requires list != [] && (close == RBRACKET || close == RBRACE) && q <= |buf|
    requires forall i :: 0 <= i < |list| ==> NoNumbers(list[i].value)
    requires IsSpace(after) && AllSpace(tail) && At(buf, q, WriteList(list, indent, noName, after, tail) + [close])
    requires Outside(buf, q + |WriteList(list, indent, noName, after, tail)| + 1)
    ensures Back(buf, ReadChildren(buf, SkipWs(buf, q), close), list, AllSurvive(list, noName),
                 q + |WriteList(list, indent, noName, after, tail)| + 1)
    decreases list, 2
  {
    hide At, SkipWs, NoNumbers, ReadElem, WriteElem, AllSurvive, SurvivesIn, ReadChildren, AllSpace, Delimited, StartChar, Outside;
    AllSurviveStep(list, noName);
    var e := WriteElem(list[0], indent, noName);
    var q1 := q + |e|;
    ElemStartOfList(buf, q, list, indent, noName, after, tail, close);
    if |list| == 1 {
      assert e + tail + [close] == e + (tail + [close]);
      AtSplit(buf, q, e, tail + [close]);
      CloseAt(buf, q1, tail, close);
      OutsideTail(buf, q1, tail, close);
      ElemBack(buf, q, list[0], indent, noName);
      ReadFirst(buf, SkipWs(buf, q), close, list);
      assert AllSurvive(list[1..], noName) by { NoneToSurvive(noName); }
    } else {
      var rest := WriteList(list[1..], indent, noName, after, tail);
      assert e + ([COMMA, after] + rest) + [close] == e + ([COMMA, after] + (rest + [close]));
      AtSplit(buf, q, e, [COMMA, after] + (rest + [close]));
      CommaAt(buf, q1, after, rest + [close], close);
      OutsideRest(buf, q1, list[1..], indent, noName, after, tail, close);
      ElemBack(buf, q, list[0], indent, noName);
      ReadFirst(buf, SkipWs(buf, q), close, list);
      ListBack(buf, q1 + 2, list[1..], indent, noName, after, tail, close);
    }
  }

  lemma ElemStartOfList(buf: Text, q: nat, list: seq<Elem>, indent: nat, noName: bool, after: byte, tail: Text, close: byte)
    requires list != [] && forall i :: 0 <= i < |list| ==> NoNumbers(list[i].value)
    requires At(buf, q, WriteList(list, indent, noName, after, tail) + [close])
    ensures SkipWs(buf, q) < |buf| && StartChar(buf[SkipWs(buf, q)])
  {
    hide At, SkipWs, NoNumbers, WriteElem, StartChar;
    var e := WriteElem(list[0], indent, noName);
    var w := WriteList(list, indent, noName, after, tail);
    AtSplit(buf, q, w, [close]);
    AtSplit(buf, q, e, w[|e|..]);
    ElemStart(buf, q, list[0], indent, noName);
  }

  lemma OutsideTail(buf: Text, q: nat, tail: Text, close: byte)
    requires At(buf, q, tail + [close]) && AllSpace(tail) && (close == RBRACKET || close == RBRACE) && Outside(buf, q + |tail| + 1)
    ensures Outside(buf, q)
  {
    CleanWithout(tail + [close]);
    hide Clean;
    OutsideBefore(buf, q, tail + [close]);
  }

  lemma OutsideRest(buf: Text, q: nat, list: seq<Elem>, indent: nat, noName: bool, after: byte, tail: Text, close: byte)
    requires list != [] && forall i :: 0 <= i < |list| ==> NoNumbers(list[i].value)
    requires IsSpace(after) && AllSpace(tail) && (close == RBRACKET || close == RBRACE)
    requires At(buf, q, [COMMA, after] + (WriteList(list, indent, noName, after, tail) + [close]))
    requires Outside(buf, q + 2 + |WriteList(list, indent, noName, after, tail)| + 1)
    ensures Outside(buf, q)
  {
    var rest := WriteList(list, indent, noName, after, tail);
    CleanWithout(tail);
    CleanWithout([COMMA, after]);
    CleanWithout([close]);
    hide Clean, WriteList, NoNumbers;
    CleanList(list, indent, noName, after, tail);
    CleanAppend(rest, [close]);
    CleanAppend([COMMA, after], rest + [close]);
    OutsideBefore(buf, q, [COMMA, after] + (rest + [close]));
  }

  // An array or object without numbers comes back from its text exactly when every name is plain or
  // missing, every string without a name is plain, and no item of an array has a name; strings that are
  // values of named members are arbitrary.
  lemma TreeRoundTrip(t: Elem)
    requires (t.value.VArr? || t.value.VObj?) && NoNumbers(t.value)
    ensures var text := WriteElem(t, 0, false); ReadDocument(text) == Ok(t, |text|) <==> Survives(t)
  {
    hide ReadElem, WriteElem, Survives;
    var text := WriteElem(t, 0, false);
    AtSelf(text);
    ElemStart(text, 0, t, 0, false);
    assert text[|text|..] == [] && Outside(text, |text|);
    ElemBack(text, 0, t, 0, false);
    assert SkipWs(text, |text|) == |text|;
  }

  // For instance an empty string in an array does not come back, nor does a named item of an array, nor
  // a member with a quote as its name.
  lemma SomeTreesAreLost(name: Text)
    requires name != []
    ensures var t := Elem([], VArr([Elem([], VStr([]))])); ReadDocument(WriteElem(t, 0, false)) != Ok(t, |WriteElem(t, 0, false)|)
    ensures var t := Elem([], VArr([Elem(name, VNull)])); ReadDocument(WriteElem(t, 0, false)) != Ok(t, |WriteElem(t, 0, false)|)
    ensures var t := Elem([], VObj([Elem([QUOTE], VNull)])); ReadDocument(WriteElem(t, 0, false)) != Ok(t, |WriteElem(t, 0, false)|)
  {
    hide ReadDocument, WriteElem;
    var t1, t2 := Elem([], VArr([Elem([], VStr([]))])), Elem([], VArr([Elem(name, VNull)]));
    assert !Survives(Elem([], VStr([])));
    assert t1.value.items[0] == Elem([], VStr([])) && t2.value.items[0].name != [];
    TreeRoundTrip(t1);
    TreeRoundTrip(t2);
    var t3 := Elem([], VObj([Elem([QUOTE], VNull)]));
    assert !Unescaped([QUOTE][0]) && !Plain([QUOTE]);
    assert t3.value.members[0] == Elem([QUOTE], VNull);
    TreeRoundTrip(t3);
  }
}
