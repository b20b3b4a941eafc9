/** The texts that the JSON reader accepts, wherever they come from, and what it reads from them: a grammar
    after section 2 of RFC 4627 that says what the reader of json.c makes of white space, commas, names and
    escapes. */
module JsonGrammar {
  import opened Bytes
  import opened Options
  import opened JsonString
  import opened JsonTree
  import JsonRoundTrip

  // ---------------------------------------------------------------- characters

  predicate IsBlank(c: byte) { c == 32 || c == 9 || c == 10 || c == 13 }

  predicate Blanks(t: Text) { forall i :: 0 <= i < |t| ==> IsBlank(t[i]) }

  // White space and commas, in any order and number.
  predicate IsGap(t: Text) { forall i :: 0 <= i < |t| ==> IsBlank(t[i]) || t[i] == 44 }

  predicate IsFigure(c: byte) { c == 46 || 48 <= c <= 57 }

  // ---------------------------------------------------------------- strings

  // What a hexadecimal digit is worth.
  predicate IsHex(d: byte, v: nat) {
    (48 <= d <= 57 && v == d - 48) || (65 <= d <= 70 && v == d - 55) || (97 <= d <= 102 && v == d - 87)
  }

  // What the letter after a backslash stands for.
  predicate IsLetter(e: byte, c: byte) {
    (e == c && (e == 34 || e == 92 || e == 47)) || (e == 98 && c == 8) || (e == 102 && c == 12) || (e == 110 && c == 10) ||
    (e == 114 && c == 13) || (e == 116 && c == 9)
  }

  // One character of a string: as it is, by a letter, or by four digits, of which the last two count.
  datatype Unit = Plain(c: byte) | Letter(e: byte, c: byte) | Code(d1: byte, d2: byte, d3: byte, d4: byte, hi: nat, lo: nat)

  // Quotes, backslashes and newlines must be escaped.
  predicate UnitOk(u: Unit) {
    match u
    case Plain(c) => c != 34 && c != 92 && c != 10
    case Letter(e, c) => IsLetter(e, c)
    case Code(d1, d2, d3, d4, hi, lo) => (exists v :: 0 <= v < 16 && IsHex(d1, v)) && (exists v :: 0 <= v < 16 && IsHex(d2, v)) && IsHex(d3, hi) && IsHex(d4, lo)
  }

  function UnitText(u: Unit): Text {
    match u
    case Plain(c) => [c]
    case Letter(e, _) => [92, e]
    case Code(d1, d2, d3, d4, _, _) => [92, 117, d1, d2, d3, d4]
  }

  function UnitValue(u: Unit): byte
    requires UnitOk(u)
  {
    match u
    case Plain(c) => c
    case Letter(_, c) => c
    case Code(_, _, _, _, hi, lo) => 16 * hi + lo
  }

  predicate UnitsOk(us: seq<Unit>) { forall i :: 0 <= i < |us| ==> UnitOk(us[i]) }

  function UnitsText(us: seq<Unit>): Text { if us == [] then [] else UnitText(us[0]) + UnitsText(us[1..]) }

  function UnitsValue(us: seq<Unit>): Text
    requires UnitsOk(us)
  {
    seq(|us|, i requires 0 <= i < |us| => UnitValue(us[i]))
  }

  // Between quotes, token is read as s.
  ghost predicate ReadsAs(token: Text, s: Text) { Unescape(token) == Some(s) && EndQuote(token + [34], 0) == Some(|token|) }

  lemma HexIs(d: byte, v: nat)
    requires IsHex(d, v)
    ensures HexVal(d) == v < 16 && d != 34 && d != 92 && d != 10
  {}

  lemma UnescapeUnit(u: Unit, rest: Text)
    requires UnitOk(u)
    ensures Unescape(UnitText(u) + rest) == Prepend(UnitValue(u), Unescape(rest))
  {
    var t := UnitText(u) + rest;
    match u
    case Plain(c) => assert t[0] == c && t[1..] == rest;
    case Letter(e, c) => assert t[0] == 92 && t[1] == e && t[2..] == rest && LetterValue(e) == c;
    case Code(d1, d2, d3, d4, hi, lo) =>
      assert t[0] == 92 && t[1] == 117 && t[4] == d3 && t[5] == d4 && t[6..] == rest;
      HexIs(d3, hi);
      HexIs(d4, lo);
  }

  lemma EndQuoteUnit(buf: Text, p: nat, u: Unit)
    requires UnitOk(u) && At(buf, p, UnitText(u))
    ensures EndQuote(buf, p) == EndQuote(buf, p + |UnitText(u)|)
  {
    var t := UnitText(u);
    assert buf[p] == t[0];
    if !u.Plain? { assert buf[p + 1] == t[1]; }
    if u.Code? {
      assert buf[p + 2] == t[2] && buf[p + 3] == t[3] && buf[p + 4] == t[4] && buf[p + 5] == t[5];
      var v1 :| 0 <= v1 < 16 && IsHex(u.d1, v1);
      var v2 :| 0 <= v2 < 16 && IsHex(u.d2, v2);
      HexIs(u.d1, v1);
      HexIs(u.d2, v2);
      HexIs(u.d3, u.hi);
      HexIs(u.d4, u.lo);
      assert EndQuote(buf, p) == EndQuote(buf, p + 2) == EndQuote(buf, p + 3) == EndQuote(buf, p + 4) == EndQuote(buf, p + 5);
    }
  }

  lemma {:induction false} EndQuoteUnits(buf: Text, p: nat, us: seq<Unit>)
    requires UnitsOk(us) && At(buf, p, UnitsText(us) + [34])
    ensures EndQuote(buf, p) == Some(p + |UnitsText(us)|)
    decreases |us|
  {
    hide EndQuote, UnitText, At;
    if us == [] {
      assert UnitsText(us) + [34] == [34];
      EndQuoteHere(buf, p);
    } else {
      var t, rest := UnitText(us[0]), UnitsText(us[1..]);
      assert UnitsText(us) + [34] == t + (rest + [34]);
      AtSplit(buf, p, t, rest + [34]);
      hide UnitsText;
      EndQuoteUnit(buf, p, us[0]);
      EndQuoteUnits(buf, p + |t|, us[1..]);
    }
  }

  lemma {:induction false} UnescapeUnits(us: seq<Unit>)
    requires UnitsOk(us)
    ensures Unescape(UnitsText(us)) == Some(UnitsValue(us))
    decreases |us|
  {
    if us != [] {
      UnescapeUnit(us[0], UnitsText(us[1..]));
      UnescapeUnits(us[1..]);
      hide Unescape;
      assert UnitsValue(us) == [UnitValue(us[0])] + UnitsValue(us[1..]);
    }
  }

  // A string of such characters is read as what they stand for.
  lemma UnitsRead(us: seq<Unit>)
    requires UnitsOk(us)
    ensures ReadsAs(UnitsText(us), UnitsValue(us))
  {
    UnescapeUnits(us);
    AtSelf(UnitsText(us) + [34]);
    EndQuoteUnits(UnitsText(us) + [34], 0, us);
  }

  // Another letter after a backslash is refused, wherever it comes.
  lemma {:induction false} OtherLetterRefused(us: seq<Unit>, e: byte, rest: Text)
    requires UnitsOk(us) && e != 117 && !exists c :: IsLetter(e, c)
    ensures Unescape(UnitsText(us) + ([92, e] + rest)) == None
    decreases |us|
  {
    if us == [] {
      var t := UnitsText(us) + ([92, e] + rest);
      assert t[0] == 92 && t[1] == e;
      if LetterValue(e) != 0 { assert IsLetter(e, LetterValue(e)); }
    } else {
      OtherLetterRefused(us[1..], e, rest);
      var more := UnitsText(us[1..]) + ([92, e] + rest);
      assert UnitsText(us) + ([92, e] + rest) == UnitText(us[0]) + more;
      UnescapeUnit(us[0], more);
    }
  }

  // The writer escapes a character by its letter if it has one, writes it as it is if it is printable, and by
  // its code otherwise.
  lemma EscapesAreUnits(c: byte) returns (u: Unit)
    ensures UnitOk(u) && UnitText(u) == EscapeByte(c) && UnitValue(u) == c
    ensures u.Letter? <==> exists e :: IsLetter(e, c)
    ensures u.Plain? <==> 32 <= c < 127 && !exists e :: IsLetter(e, c)
  {
    if ShortEscape(c) != 0 {
      u := Letter(ShortEscape(c), c);
      assert IsLetter(ShortEscape(c), c);
    } else if 32 <= c < 127 {
      u := Plain(c);
    } else {
      var hi, lo := c / 16, c % 16;
      u := Code(48, 48, HexDigit(hi), HexDigit(lo), hi, lo);
      assert IsHex(48, 0);
    }
  }

  // ---------------------------------------------------------------- values and elements

  datatype Node =
    | Word(value: Value)                            // null, true and false
    | Number(neg: bool, gap: Text, token: Text)     // white space may follow the sign
    | String(token: Text, str: Text)
    | Raw(lead: Text, text: Text)                   // a string without a name, which is not unescaped
    | List(isObj: bool, open: Text, kids: seq<Kid>)

  // A name with its colon; an empty string before a value is dropped.
  datatype Tag = NoTag | Named(lead: Text, name: Text, before: Text, after: Text) | Dropped(lead: Text, after: Text)

  datatype Kid = Kid(tag: Tag, node: Node, gap: Text)

  function WordText(v: Value): Text {
    match v
    case VBool(b) => if b then [116, 114, 117, 101] else [102, 97, 108, 115, 101]
    case _ => [110, 117, 108, 108]
  }

  function NodeText(n: Node): (t: Text)
    decreases n
  {
    match n
    case Word(v) => WordText(v)
    case Number(neg, gap, token) => if neg then [45] + (gap + token) else token
    case String(token, _) => [34] + (token + [34])
    case Raw(lead, text) => [34] + (lead + (text + [34]))
    case List(isObj, open, kids) => [if isObj then 123 else 91] + (open + (KidsText(kids) + [if isObj then 125 else 93]))
  }

  function TagText(t: Tag): Text {
    match t
    case NoTag => []
    case Named(lead, name, before, after) => [34] + (lead + (name + ([34] + (before + ([58] + after)))))
    case Dropped(lead, after) => [34] + (lead + ([34] + after))
  }

  function CoreText(k: Kid): Text
    decreases k, 0
  {
    TagText(k.tag) + NodeText(k.node)
  }

  function KidsText(kids: seq<Kid>): Text
    decreases kids
  {
    if kids == [] then [] else CoreText(kids[0]) + (kids[0].gap + KidsText(kids[1..]))
  }

  // What it means.
  function NodeValue(n: Node): Value
    decreases n
  {
    match n
    case Word(v) => v
    case Number(neg, _, token) => VNum(neg, token)
    case String(_, s) => VStr(s)
    case Raw(_, s) => VStr(s)
    case List(isObj, _, kids) => if isObj then VObj(KidsValue(kids)) else VArr(KidsValue(kids))
  }

  function KidValue(k: Kid): Elem
    decreases k, 0
  {
    Elem(if k.tag.Named? then k.tag.name else [], NodeValue(k.node))
  }

  function KidsValue(kids: seq<Kid>): seq<Elem>
    decreases kids
  {
    if kids == [] then [] else [KidValue(kids[0])] + KidsValue(kids[1..])
  }

  // A quoted text that is taken as it stands, after white space.
  predicate IsToken(lead: Text, t: Text) { Blanks(lead) && 34 !in t && (t != [] ==> !IsBlank(t[0])) }

  ghost predicate NodeOk(n: Node)
    decreases n
  {
    match n
    case Word(v) => v.VNull? || v.VBool?
    case Number(neg, gap, token) => Blanks(gap) && (!neg ==> gap == []) && token != [] && forall i :: 0 <= i < |token| ==> IsFigure(token[i])
    case String(token, s) => ReadsAs(token, s)
    case Raw(lead, text) => IsToken(lead, text) && text != []
    case List(_, open, kids) => IsGap(open) && KidsOk(kids)
  }

  predicate TagOk(t: Tag) {
    match t
    case NoTag => true
    case Named(lead, name, before, after) => IsToken(lead, name) && Blanks(before) && Blanks(after)
    case Dropped(lead, after) => Blanks(lead) && Blanks(after)
  }

  ghost predicate CoreOk(k: Kid)
    decreases k, 0
  {
    TagOk(k.tag) && NodeOk(k.node) && (if k.tag.NoTag? then !k.node.String? else !k.node.Raw?)
  }

  // Two numbers must not run together.
  predicate StartsFigure(k: Kid) { k.tag.NoTag? && k.node.Number? && !k.node.neg }

  ghost predicate KidsOk(kids: seq<Kid>)
    decreases kids
  {
    kids == [] ||
    (&& CoreOk(kids[0]) && IsGap(kids[0].gap) && KidsOk(kids[1..])
     && (kids[0].node.Number? && kids[0].gap == [] && |kids| > 1 ==> !StartsFigure(kids[1])))
  }

  // ---------------------------------------------------------------- white space and gaps

  lemma {:induction false} SkipRun(buf: Text, p: nat, ws: Text)
    requires At(buf, p, ws) && Blanks(ws)
    ensures SkipWs(buf, p) == SkipWs(buf, p + |ws|)
    decreases |ws|
  {
    if ws != [] {
      assert buf[p] == ws[0];
      assert ws == [ws[0]] + ws[1..];
      AtSplit(buf, p, [ws[0]], ws[1..]);
      SkipRun(buf, p + 1, ws[1..]);
    }
  }

  lemma SkipTo(buf: Text, p: nat, ws: Text)
    requires At(buf, p, ws) && Blanks(ws) && (p + |ws| < |buf| ==> !IsBlank(buf[p + |ws|]))
    ensures SkipWs(buf, p) == p + |ws|
  {
    SkipRun(buf, p, ws);
  }

  // What is skipped is white space.
  lemma {:induction false} SkippedBlank(buf: Text, p: nat)
    requires p <= |buf|
    ensures var q := SkipWs(buf, p); p <= q <= |buf| && Blanks(buf[p..q]) && (q < |buf| ==> !IsBlank(buf[q])) && SkipWs(buf, q) == q
    decreases |buf| - p
  {
    if p < |buf| && IsSpace(buf[p]) {
      SkippedBlank(buf, p + 1);
      var q := SkipWs(buf, p);
      assert buf[p..q] == [buf[p]] + buf[p + 1..q];
    }
  }

  // The position after white space and commas.
  function SkipGap(buf: Text, p: nat): (q: nat)
    requires p <= |buf|
    ensures p <= q <= |buf|
  {
    SkipCommas(buf, SkipWs(buf, p))
  }

  lemma {:induction false} GapSkips(buf: Text, p: nat, g: Text)
    requires At(buf, p, g) && IsGap(g) && (p + |g| < |buf| ==> !IsBlank(buf[p + |g|]) && buf[p + |g|] != 44)
    ensures SkipGap(buf, p) == p + |g|
    decreases |g|
  {
    if g != [] {
      assert buf[p] == g[0];
      assert g == [g[0]] + g[1..];
      AtSplit(buf, p, [g[0]], g[1..]);
      GapSkips(buf, p + 1, g[1..]);
      if IsBlank(g[0]) { SkipRun(buf, p, [g[0]]); }
    }
  }

  lemma {:induction false} SkippedGap(buf: Text, p: nat)
    requires p <= |buf|
    ensures var q := SkipGap(buf, p); IsGap(buf[p..q]) && (q < |buf| ==> !IsBlank(buf[q]) && buf[q] != 44)
    decreases |buf| - p
  {
    SkippedBlank(buf, p);
    var s, q := SkipWs(buf, p), SkipGap(buf, p);
    CommaOrNot(buf, s);
    hide SkipWs, SkipCommas, SkipGap;
    if s < |buf| && buf[s] == 44 {
      SkippedGap(buf, s + 1);
      forall i | p <= i < q ensures IsBlank(buf[i]) || buf[i] == 44 {
        if i < s { assert buf[i] == buf[p..s][i - p]; } else if i > s { assert buf[i] == buf[s + 1..q][i - s - 1]; }
      }
    } else {
      assert q == s;
    }
  }

  lemma CommaOrNot(buf: Text, s: nat)
    requires s <= |buf| && SkipWs(buf, s) == s
    ensures SkipGap(buf, s) == if s < |buf| && buf[s] == 44 then SkipGap(buf, s + 1) else s
  {
    hide SkipWs;
  }

  // ---------------------------------------------------------------- reading what is so written

  // The reader, one branch at a time.
  lemma QuoteBranch(buf: Text, p: nat, s: nat, e: nat)
    requires p < |buf| && buf[p] == 34 && SkipWs(buf, p + 1) == s < |buf| && Until(buf, s, 34) == e < |buf|
    ensures var q := SkipWs(buf, e + 1);
      ReadElem(buf, p) ==
        if Peek(buf, q) == 58 then ReadValue(buf, SkipWs(buf, q + 1), buf[s..e])
        else if s < e then Ok(Elem([], VStr(buf[s..e])), q)
        else ReadValue(buf, q, [])
  {
    hide SkipWs, Until, ReadValue;
  }

  lemma StringBranch(buf: Text, p: nat, name: Text)
    requires p < |buf| && buf[p] == 34
    ensures var q := EndQuote(buf, p + 1);
      ReadValue(buf, p, name) ==
        if q.None? then Fail
        else
          var s := Unescape(buf[p + 1..q.value]);
          if s.None? then Fail else Ok(Elem(name, VStr(s.value)), SkipWs(buf, q.value + 1))
  {
    hide SkipWs, EndQuote, Unescape, ReadNumber, ReadWord, ReadChildren;
  }

  lemma ListBranch(buf: Text, p: nat, name: Text)
    requires p < |buf| && (buf[p] == 91 || buf[p] == 123)
    ensures var list := ReadChildren(buf, SkipWs(buf, p + 1), if buf[p] == 91 then 93 else 125);
      ReadValue(buf, p, name) ==
        if list.Fail? then Fail else Ok(Elem(name, if buf[p] == 91 then VArr(list.value) else VObj(list.value)), list.pos)
  {
    hide SkipWs, EndQuote, Unescape, ReadNumber, ReadWord, ReadChildren;
  }

  lemma ChildrenBranch(buf: Text, p: nat, s: nat, close: byte)
    requires p <= |buf| && SkipCommas(buf, p) == s < |buf| && close != 0
    ensures ReadChildren(buf, p, close) ==
      if buf[s] == close then Ok([], SkipWs(buf, s + 1))
      else
        var e := ReadElem(buf, s);
        if e.Fail? then Fail
        else
          var rest := ReadChildren(buf, e.pos, close);
          if rest.Fail? then Fail else Ok([e.value] + rest.value, rest.pos)
  {
    hide SkipWs, SkipCommas, ReadElem;
  }

  // What must follow a node that ends at q: a number must have ended, and a word must not be last.
  predicate EndsAt(buf: Text, q: nat, n: Node) {
    q <= |buf| && (n.Number? ==> q == |buf| || !IsFigure(buf[q])) && (n.Word? ==> |WordText(n.value)| == 5 || q < |buf|)
  }

  lemma WordReads(buf: Text, p: nat, name: Text, v: Value)
    requires (v.VNull? || v.VBool?) && At(buf, p, WordText(v)) && EndsAt(buf, p + |WordText(v)|, Word(v))
    ensures ReadValue(buf, p, name) == Ok(Elem(name, v), SkipWs(buf, p + |WordText(v)|))
  {
    var w := WordText(v);
    AtText(buf, p, w);
    assert buf[p] == w[0];
    if |w| == 4 { assert buf[p..p + 5][0] == w[0]; }
    hide SkipWs;
  }

  lemma {:induction false} FiguresRead(buf: Text, p: nat, token: Text)
    requires At(buf, p, token) && (forall i :: 0 <= i < |token| ==> IsFigure(token[i]))
    requires p + |token| == |buf| || !IsFigure(buf[p + |token|])
    ensures p <= |buf| && Digits(buf, p) == p + |token|
    decreases |token|
  {
    if token != [] {
      assert buf[p] == token[0];
      assert token == [token[0]] + token[1..];
      AtSplit(buf, p, [token[0]], token[1..]);
      FiguresRead(buf, p + 1, token[1..]);
    }
  }

  lemma NumberReads(buf: Text, p: nat, name: Text, n: Node)
    requires n.Number? && NodeOk(n) && At(buf, p, NodeText(n)) && EndsAt(buf, p + |NodeText(n)|, n)
    ensures ReadValue(buf, p, name) == Ok(Elem(name, NodeValue(n)), SkipWs(buf, p + |NodeText(n)|))
  {
    var start := if n.neg then p + 1 + |n.gap| else p;
    if n.neg {
      AtSplit(buf, p, [45], n.gap + n.token);
      AtSplit(buf, p + 1, n.gap, n.token);
      assert buf[p] == [45][0] && buf[start] == n.token[0];
      SkipTo(buf, p + 1, n.gap);
    }
    FiguresRead(buf, start, n.token);
    AtText(buf, start, n.token);
    assert buf[start] == n.token[0];
    hide SkipWs, Digits;
  }

  // The closing quote depends only on the text up to it.
  lemma {:induction false} EndQuoteInside(buf: Text, p: nat, token: Text, i: nat)
    requires At(buf, p, token + [34]) && i <= |token|
    ensures EndQuote(token + [34], i) == Some(|token|) ==> EndQuote(buf, p + i) == Some(p + |token|)
    decreases |token| - i
  {
    var t := token + [34];
    assert buf[p + i] == t[i];
    if i < |token| {
      if t[i] == 92 {
        assert buf[p + i + 1] == t[i + 1];
        if i + 2 <= |token| { EndQuoteInside(buf, p, token, i + 2); }
      } else if t[i] != 34 && t[i] != 10 {
        EndQuoteInside(buf, p, token, i + 1);
      }
    }
  }

  lemma StringReads(buf: Text, p: nat, name: Text, token: Text, s: Text)
    requires ReadsAs(token, s) && At(buf, p, [34] + (token + [34]))
    ensures ReadValue(buf, p, name) == Ok(Elem(name, VStr(s)), SkipWs(buf, p + |token| + 2))
  {
    hide SkipWs, EndQuote, Unescape, ReadValue;
    AtSplit(buf, p, [34], token + [34]);
    assert buf[p] == [34][0];
    EndQuoteInside(buf, p + 1, token, 0);
    AtSplit(buf, p + 1, token, [34]);
    AtText(buf, p + 1, token);
    hide At;
    StringBranch(buf, p, name);
  }

  // The token between quotes, as the reader of names takes it.
  lemma TokenReads(buf: Text, p: nat, lead: Text, t: Text)
    requires IsToken(lead, t) && At(buf, p, lead + (t + [34]))
    ensures var s := p + |lead|; p <= |buf| && SkipWs(buf, p) == s && s + |t| < |buf| && Until(buf, s, 34) == s + |t| && buf[s..s + |t|] == t
  {
    AtSplit(buf, p, lead, t + [34]);
    var s := p + |lead|;
    assert buf[s] == (t + [34])[0];
    SkipTo(buf, p, lead);
    JsonRoundTrip.UntilIs(buf, s, t);
    AtSplit(buf, s, t, [34]);
    AtText(buf, s, t);
  }

  lemma AtFirst(buf: Text, p: nat, c: byte, rest: Text)
    requires At(buf, p, [c] + rest)
    ensures p < |buf| && buf[p] == c && At(buf, p + 1, rest)
  {
    AtSplit(buf, p, [c], rest);
    assert buf[p] == [c][0];
  }

  lemma RawReads(buf: Text, p: nat, lead: Text, t: Text)
    requires IsToken(lead, t) && t != [] && At(buf, p, [34] + (lead + (t + [34])))
    requires Peek(buf, SkipWs(buf, p + |lead| + |t| + 2)) != 58
    ensures ReadElem(buf, p) == Ok(Elem([], VStr(t)), SkipWs(buf, p + |lead| + |t| + 2))
  {
    hide SkipWs, Until, ReadValue, ReadElem, IsToken, At;
    AtFirst(buf, p, 34, lead + (t + [34]));
    TokenReads(buf, p + 1, lead, t);
    var s, e := p + 1 + |lead|, p + 1 + |lead| + |t|;
    QuoteBranch(buf, p, s, e);
    assert buf[s..e] == t && e + 1 == p + |lead| + |t| + 2;
  }

  // Where the parts of a name stand.
  lemma NamedLayout(buf: Text, p: nat, t: Tag)
    requires t.Named? && At(buf, p, TagText(t))
    ensures var s := p + |t.lead| + |t.name| + 2; var c := s + |t.before|;
      && p < |buf| && buf[p] == 34 && At(buf, p + 1, t.lead + (t.name + [34])) && At(buf, s, t.before)
      && c < |buf| && buf[c] == 58 && At(buf, c + 1, t.after) && p + |TagText(t)| == c + 1 + |t.after|
  {
    var rest := t.before + ([58] + t.after);
    AtSplit(buf, p, [34], t.lead + (t.name + ([34] + rest)));
    assert buf[p] == [34][0];
    assert t.lead + (t.name + ([34] + rest)) == (t.lead + (t.name + [34])) + rest;
    AtSplit(buf, p + 1, t.lead + (t.name + [34]), rest);
    var s := p + |t.lead| + |t.name| + 2;
    AtSplit(buf, s, t.before, [58] + t.after);
    AtSplit(buf, s + |t.before|, [58], t.after);
    assert buf[s + |t.before|] == [58][0];
  }

  // A name, or an empty string, and the value after it.
  lemma NamedReads(buf: Text, p: nat, t: Tag, q: nat)
    requires t.Named? && TagOk(t) && At(buf, p, TagText(t)) && q == p + |TagText(t)| < |buf| && !IsBlank(buf[q])
    ensures ReadElem(buf, p) == ReadValue(buf, q, t.name)
  {
    hide SkipWs, Until, ReadValue, ReadElem, At, TagText, Blanks, IsToken;
    NamedLayout(buf, p, t);
    TokenReads(buf, p + 1, t.lead, t.name);
    var s := p + |t.lead| + |t.name| + 2;
    SkipTo(buf, s, t.before);
    SkipTo(buf, s + |t.before| + 1, t.after);
    QuoteBranch(buf, p, p + 1 + |t.lead|, p + 1 + |t.lead| + |t.name|);
  }

  lemma DroppedReads(buf: Text, p: nat, t: Tag, q: nat)
    requires t.Dropped? && TagOk(t) && At(buf, p, TagText(t)) && q == p + |TagText(t)| < |buf| && !IsBlank(buf[q]) && buf[q] != 58
    ensures ReadElem(buf, p) == ReadValue(buf, q, [])
  {
    hide SkipWs, Until, ReadValue, ReadElem, At, Blanks, TagText;
    DroppedLayout(buf, p, t);
    TokenReads(buf, p + 1, t.lead, []);
    SkipTo(buf, p + |t.lead| + 2, t.after);
    QuoteBranch(buf, p, p + 1 + |t.lead|, p + 1 + |t.lead|);
  }

  lemma DroppedLayout(buf: Text, p: nat, t: Tag)
    requires t.Dropped? && At(buf, p, TagText(t))
    ensures var s := p + |t.lead| + 2;
      p < |buf| && buf[p] == 34 && At(buf, p + 1, t.lead + ([] + [34])) && At(buf, s, t.after) && p + |TagText(t)| == s + |t.after|
  {
    hide At;
    AtFirst(buf, p, 34, t.lead + ([34] + t.after));
    assert [] + [34] == [34];
    assert t.lead + ([34] + t.after) == (t.lead + [34]) + t.after;
    AtSplit(buf, p + 1, t.lead + [34], t.after);
  }

  // A node begins with none of the characters that stand between elements.
  lemma NodeStarts(n: Node)
    requires NodeOk(n)
    ensures var t := NodeText(n); t != [] && !IsBlank(t[0]) && t[0] != 44 && t[0] != 58 && (t[0] == 34 <==> n.String? || n.Raw?)
    ensures IsFigure(NodeText(n)[0]) <==> n.Number? && !n.neg
    ensures NodeText(n)[0] != 93 && NodeText(n)[0] != 125
  {
    if n.Number? && !n.neg { assert IsFigure(n.token[0]); }
  }

  lemma CoreStarts(k: Kid)
    requires CoreOk(k)
    ensures var t := CoreText(k); t != [] && !IsBlank(t[0]) && t[0] != 44 && t[0] != 58 && t[0] != 93 && t[0] != 125
    ensures IsFigure(CoreText(k)[0]) <==> StartsFigure(k)
  {
    NodeStarts(k.node);
    if !k.tag.NoTag? { assert CoreText(k)[0] == TagText(k.tag)[0] == 34; }
    else { assert CoreText(k) == NodeText(k.node); }
  }

  // What must follow the core of a kid that ends at q.
  predicate KidEndsAt(buf: Text, q: nat, k: Kid) {
    EndsAt(buf, q, k.node) && (k.node.Raw? ==> Peek(buf, SkipWs(buf, q)) != 58)
  }

  lemma {:induction false} NodeReads(buf: Text, p: nat, name: Text, n: Node)
    requires NodeOk(n) && !n.Raw? && At(buf, p, NodeText(n)) && EndsAt(buf, p + |NodeText(n)|, n)
    ensures p <= |buf| && ReadValue(buf, p, name) == Ok(Elem(name, NodeValue(n)), SkipWs(buf, p + |NodeText(n)|))
    decreases n, 1
  {
    match n
    case Word(v) => WordReads(buf, p, name, v);
    case Number(_, _, _) => NumberReads(buf, p, name, n);
    case String(token, s) => StringReads(buf, p, name, token, s);
    case List(isObj, open, kids) => ListReads(buf, p, name, n);
  }

  lemma {:induction false} ListReads(buf: Text, p: nat, name: Text, n: Node)
    requires n.List? && NodeOk(n) && At(buf, p, NodeText(n))
    ensures p <= |buf| && ReadValue(buf, p, name) == Ok(Elem(name, NodeValue(n)), SkipWs(buf, p + |NodeText(n)|))
    decreases n, 0
  {
    hide ReadValue, ReadChildren, SkipWs, SkipCommas, At, KidsOk, IsGap, NodeOk, NodeText, NodeValue, KidsText;
    var b, close: byte := if n.isObj then 123 else 91, if n.isObj then 125 else 93;
    var body := KidsText(n.kids) + [close];
    ListIs(n);
    AtFirst(buf, p, b, n.open + body);
    AtSplit(buf, p + 1, n.open, body);
    var s := p + 1 + |n.open|;
    BodyStarts(buf, s, n.kids, close);
    GapSkips(buf, p + 1, n.open);
    KidsRead(buf, SkipWs(buf, p + 1), s, n.kids, close);
    ListBranch(buf, p, name);
  }

  lemma ListIs(n: Node)
    requires n.List? && NodeOk(n)
    ensures NodeText(n) == [if n.isObj then 123 else 91] + (n.open + (KidsText(n.kids) + [if n.isObj then 125 else 93]))
    ensures IsGap(n.open) && KidsOk(n.kids) && NodeValue(n) == if n.isObj then VObj(KidsValue(n.kids)) else VArr(KidsValue(n.kids))
  {}

  lemma BodyStarts(buf: Text, s: nat, kids: seq<Kid>, close: byte)
    requires KidsOk(kids) && (close == 93 || close == 125) && At(buf, s, KidsText(kids) + [close])
    ensures s < |buf| && !IsBlank(buf[s]) && buf[s] != 44 && buf[s] != 58 && (IsFigure(buf[s]) <==> kids != [] && StartsFigure(kids[0]))
    ensures buf[s] == close <==> kids == []
  {
    var t := KidsText(kids) + [close];
    assert buf[s] == t[0];
    if kids != [] {
      CoreStarts(kids[0]);
      hide CoreText;
      assert t[0] == CoreText(kids[0])[0];
    } else {
      assert t == [close];
    }
  }

  lemma RawIs(n: Node)
    requires n.Raw? && NodeOk(n)
    ensures IsToken(n.lead, n.text) && n.text != [] && NodeText(n) == [34] + (n.lead + (n.text + [34])) && NodeValue(n) == VStr(n.text)
  {}

  lemma ValueBranch(buf: Text, p: nat)
    requires p <= |buf| && Peek(buf, p) != 34
    ensures ReadElem(buf, p) == ReadValue(buf, p, [])
  {
    hide ReadValue;
  }

  lemma {:induction false} CoreReads(buf: Text, p: nat, k: Kid)
    requires CoreOk(k) && At(buf, p, CoreText(k)) && KidEndsAt(buf, p + |CoreText(k)|, k)
    ensures p <= |buf| && ReadElem(buf, p) == Ok(KidValue(k), SkipWs(buf, p + |CoreText(k)|))
    decreases k, 2
  {
    hide ReadElem, ReadValue, SkipWs;
    AtSplit(buf, p, TagText(k.tag), NodeText(k.node));
    NodeStarts(k.node);
    var q := p + |TagText(k.tag)|;
    assert buf[q] == NodeText(k.node)[0];
    hide NodeOk, NodeValue, At;
    match k.tag
    case NoTag =>
      if k.node.Raw? {
        RawIs(k.node);
        RawReads(buf, p, k.node.lead, k.node.text);
      } else {
        NodeReads(buf, p, [], k.node);
        ValueBranch(buf, p);
      }
    case Named(_, name, _, _) =>
      NamedReads(buf, p, k.tag, q);
      NodeReads(buf, q, name, k.node);
    case Dropped(_, _) =>
      DroppedReads(buf, p, k.tag, q);
      NodeReads(buf, q, [], k.node);
  }

  // From any position before the first kid that the reader would skip from.
  lemma {:induction false} KidsRead(buf: Text, p: nat, s: nat, kids: seq<Kid>, close: byte)
    requires KidsOk(kids) && (close == 93 || close == 125) && p <= |buf| && SkipCommas(buf, p) == s && At(buf, s, KidsText(kids) + [close])
    ensures ReadChildren(buf, p, close) == Ok(KidsValue(kids), SkipWs(buf, s + |KidsText(kids)| + 1))
    decreases kids, 3
  {
    hide ReadChildren, SkipWs, SkipCommas, ReadElem, At, KidsOk, CoreOk, CoreText, KidEndsAt, IsGap, KidValue;
    BodyStarts(buf, s, kids, close);
    ChildrenBranch(buf, p, s, close);
    if kids == [] {
      assert KidsText(kids) == [] && KidsValue(kids) == [];
    } else {
      KidsLayout(buf, s, kids, close);
      assert KidsValue(kids) == [KidValue(kids[0])] + KidsValue(kids[1..]);
      hide KidsText, KidsValue;
      var q := s + |CoreText(kids[0])|;
      CoreReads(buf, s, kids[0]);
      KidsRead(buf, SkipWs(buf, q), q + |kids[0].gap|, kids[1..], close);
    }
  }

  lemma KidsAre(kids: seq<Kid>)
    requires KidsOk(kids) && kids != []
    ensures CoreOk(kids[0]) && IsGap(kids[0].gap) && KidsOk(kids[1..]) && KidsText(kids) == CoreText(kids[0]) + (kids[0].gap + KidsText(kids[1..]))
    ensures kids[0].node.Number? && kids[0].gap == [] && |kids| > 1 ==> !StartsFigure(kids[1])
  {
    hide CoreText, CoreOk;
  }

  lemma Regrouped(a: Text, b: Text, c: Text, d: Text)
    ensures (a + (b + c)) + d == a + (b + (c + d))
  {}

  // Where the first kid and the others stand.
  lemma KidsLayout(buf: Text, s: nat, kids: seq<Kid>, close: byte)
    requires KidsOk(kids) && kids != [] && (close == 93 || close == 125) && At(buf, s, KidsText(kids) + [close])
    ensures var k, rest, q := kids[0], kids[1..], s + |CoreText(kids[0])|;
      && CoreOk(k) && KidsOk(rest) && At(buf, s, CoreText(k)) && KidEndsAt(buf, q, k) && q <= |buf| && SkipGap(buf, q) == q + |k.gap|
      && At(buf, q + |k.gap|, KidsText(rest) + [close]) && |KidsText(kids)| == |CoreText(k)| + |k.gap| + |KidsText(rest)|
  {
    hide CoreText, SkipWs, SkipCommas, At, KidsOk, CoreOk, KidsText, KidEndsAt, IsGap, SkipGap;
    KidsAre(kids);
    var k, rest := kids[0], kids[1..];
    var q := s + |CoreText(k)|;
    ThreeAt(buf, s, CoreText(k), k.gap, KidsText(rest), close);
    BodyStarts(buf, q + |k.gap|, rest, close);
    assert k.node.Number? && k.gap == [] ==> !IsFigure(buf[q]);
    GapSkips(buf, q, k.gap);
    AfterCore(buf, q, k, rest, close);
  }

  lemma ThreeAt(buf: Text, s: nat, a: Text, b: Text, c: Text, close: byte)
    requires At(buf, s, (a + (b + c)) + [close])
    ensures At(buf, s, a) && At(buf, s + |a|, b) && At(buf, s + |a| + |b|, c + [close])
  {
    hide At;
    Regrouped(a, b, c, [close]);
    AtSplit(buf, s, a, b + (c + [close]));
    AtSplit(buf, s + |a|, b, c + [close]);
  }

  lemma AfterCore(buf: Text, q: nat, k: Kid, rest: seq<Kid>, close: byte)
    requires At(buf, q, k.gap) && IsGap(k.gap) && q + |k.gap| < |buf| && !IsBlank(buf[q + |k.gap|]) && buf[q + |k.gap|] != 58
    requires k.node.Number? && k.gap == [] ==> !IsFigure(buf[q])
    ensures KidEndsAt(buf, q, k)
  {
    if k.gap != [] { assert buf[q] == k.gap[0]; }
    SkippedBlank(buf, q);
    var s, e := SkipWs(buf, q), q + |k.gap|;
    assert forall i :: q <= i < s ==> buf[i] == buf[q..s][i - q];
    assert s <= e;
    if s < e { assert buf[s] == k.gap[s - q]; }
  }

  // ---------------------------------------------------------------- everything that is read is so written

  lemma {:induction false} DigitsAre(buf: Text, p: nat)
    requires p <= |buf|
    ensures var q := Digits(buf, p);
      p <= q <= |buf| && (forall i :: p <= i < q ==> IsFigure(buf[i])) && (q == |buf| || !IsFigure(buf[q]))
    decreases |buf| - p
  {
    if p < |buf| && IsDigit(buf[p]) { DigitsAre(buf, p + 1); }
  }

  // The node at p is n, and the reader goes on after it.
  ghost predicate ReadsNode(buf: Text, p: nat, name: Text, n: Node)
    requires p <= |buf|
  {
    && NodeOk(n) && !n.Raw? && At(buf, p, NodeText(n)) && EndsAt(buf, p + |NodeText(n)|, n)
    && ReadValue(buf, p, name) == Ok(Elem(name, NodeValue(n)), SkipWs(buf, p + |NodeText(n)|))
  }

  lemma NumberIsNode(buf: Text, p: nat, name: Text) returns (n: Node)
    requires p < |buf| && (IsFigure(buf[p]) || buf[p] == 45) && ReadValue(buf, p, name).Ok?
    ensures ReadsNode(buf, p, name, n)
  {
    var neg := buf[p] == 45;
    var p1 := if neg then SkipWs(buf, p + 1) else p;
    if neg { SkippedBlank(buf, p + 1); }
    var p2 := Digits(buf, p1);
    DigitsAre(buf, p1);
    assert p1 < p2;
    n := Number(neg, if neg then buf[p + 1..p1] else [], buf[p1..p2]);
    hide SkipWs, Digits, At, ReadValue;
    AtSlice(buf, p1, p2);
    if neg {
      AtSlice(buf, p + 1, p1);
      AtJoin(buf, p + 1, n.gap, n.token);
      AtOne(buf, p);
      AtJoin(buf, p, [45], n.gap + n.token);
    }
    NumberReads(buf, p, name, n);
  }

  lemma StringIsNode(buf: Text, p: nat, name: Text) returns (n: Node)
    requires p < |buf| && buf[p] == 34 && ReadValue(buf, p, name).Ok?
    ensures ReadsNode(buf, p, name, n)
  {
    hide EndQuote, Unescape, ReadValue, SkipWs, At;
    StringBranch(buf, p, name);
    var q := EndQuote(buf, p + 1).value;
    var token := buf[p + 1..q];
    n := String(token, Unescape(token).value);
    QuotesAt(buf, p, q);
    assert p + 1 + |token| == q && EndQuote(buf, p + 1 + 0) == Some(p + 1 + |token|);
    QuoteInside(buf, p + 1, token, 0);
    hide ReadsAs;
    assert ReadsAs(token, n.str) by { ReadsIs(token, n.str); }
    StringReads(buf, p, name, token, n.str);
  }

  lemma ReadsIs(token: Text, s: Text)
    requires Unescape(token) == Some(s) && EndQuote(token + [34], 0) == Some(|token|)
    ensures ReadsAs(token, s)
  {
    hide Unescape, EndQuote;
  }

  lemma QuotesAt(buf: Text, p: nat, q: nat)
    requires p < q < |buf| && buf[p] == 34 && buf[q] == 34
    ensures At(buf, p, [34] + (buf[p + 1..q] + [34])) && At(buf, p + 1, buf[p + 1..q] + [34])
  {
    hide At;
    AtSlice(buf, p + 1, q);
    AtOne(buf, p);
    AtOne(buf, q);
    AtJoin(buf, p + 1, buf[p + 1..q], [34]);
    AtJoin(buf, p, [34], buf[p + 1..q] + [34]);
  }

  lemma {:induction false} QuoteInside(buf: Text, p: nat, token: Text, i: nat)
    requires At(buf, p, token + [34]) && i <= |token| && EndQuote(buf, p + i) == Some(p + |token|)
    ensures EndQuote(token + [34], i) == Some(|token|)
    decreases |token| - i
  {
    var t := token + [34];
    assert buf[p + i] == t[i];
    if i < |token| {
      if t[i] == 92 {
        assert buf[p + i + 1] == t[i + 1];
        QuoteInside(buf, p, token, i + 2);
      } else {
        QuoteInside(buf, p, token, i + 1);
      }
    }
  }

  lemma WordIsNode(buf: Text, p: nat, name: Text) returns (n: Node)
    requires p < |buf| && IsAlpha(buf[p]) && ReadValue(buf, p, name).Ok?
    ensures ReadsNode(buf, p, name, n)
  {
    var v := ReadValue(buf, p, name).value.value;
    n := Word(v);
    assert buf[p..p + |WordText(v)|] == WordText(v);
    AtSlice(buf, p, p + |WordText(v)|);
  }

  lemma {:induction false} ValueIsNode(buf: Text, p: nat, name: Text) returns (n: Node)
    requires p <= |buf| && ReadValue(buf, p, name).Ok?
    ensures ReadsNode(buf, p, name, n)
    decreases |buf| - p, 1
  {
    if p < |buf| && (IsFigure(buf[p]) || buf[p] == 45) {
      n := NumberIsNode(buf, p, name);
    } else if p < |buf| && buf[p] == 34 {
      n := StringIsNode(buf, p, name);
    } else if p < |buf| && IsAlpha(buf[p]) {
      n := WordIsNode(buf, p, name);
    } else {
      assert p < |buf| && (buf[p] == 91 || buf[p] == 123);
      n := ListIsNode(buf, p, name);
    }
  }

  lemma {:induction false} ListIsNode(buf: Text, p: nat, name: Text) returns (n: Node)
    requires p < |buf| && (buf[p] == 91 || buf[p] == 123) && ReadValue(buf, p, name).Ok?
    ensures ReadsNode(buf, p, name, n)
    decreases |buf| - p, 0
  {
    hide ReadValue, ReadChildren, SkipWs, SkipCommas, At, KidsText;
    ListBranch(buf, p, name);
    var close: byte := if buf[p] == 91 then 93 else 125;
    var kids, s := ChildrenAreKids(buf, SkipWs(buf, p + 1), close);
    SkippedGap(buf, p + 1);
    n := List(buf[p] == 123, buf[p + 1..s], kids);
    AtSlice(buf, p + 1, s);
    AtJoin(buf, p + 1, n.open, KidsText(kids) + [close]);
    AtOne(buf, p);
    AtJoin(buf, p, [buf[p]], n.open + (KidsText(kids) + [close]));
    ListReads(buf, p, name, n);
  }

  lemma AtOne(buf: Text, p: nat)
    requires p < |buf|
    ensures At(buf, p, [buf[p]])
  {}

  // The element at p is k, and the reader goes on after it.
  ghost predicate ReadsKid(buf: Text, p: nat, k: Kid)
    requires p <= |buf|
  {
    && CoreOk(k) && At(buf, p, CoreText(k)) && KidEndsAt(buf, p + |CoreText(k)|, k)
    && ReadElem(buf, p) == Ok(KidValue(k), SkipWs(buf, p + |CoreText(k)|))
  }

  lemma {:induction false} ElemIsKid(buf: Text, p: nat) returns (k: Kid)
    requires p <= |buf| && ReadElem(buf, p).Ok?
    ensures ReadsKid(buf, p, k) && k.gap == []
    decreases |buf| - p, 2
  {
    hide ReadElem, ReadValue, SkipWs, CoreOk, CoreText, KidValue, At, KidEndsAt, ReadsNode;
    if Peek(buf, p) != 34 {
      ValueBranch(buf, p);
      var n := ValueIsNode(buf, p, []);
      k := PlainCore(buf, p, n);
    } else {
      k := QuotedIsKid(buf, p);
    }
    CoreReads(buf, p, k);
  }

  lemma PlainCore(buf: Text, p: nat, n: Node) returns (k: Kid)
    requires p <= |buf| && Peek(buf, p) != 34 && ReadsNode(buf, p, [], n)
    ensures IsCore(buf, p, k)
  {
    k := Kid(NoTag, n, []);
    NodeStarts(n);
    assert buf[p] == NodeText(n)[0] && [] + NodeText(n) == NodeText(n);
    hide NodeOk, NodeText, ReadValue, SkipWs;
    CoreIs(k);
  }

  // The parts of an element that begins with a quote: after white space to s, a token to e, white space to q.
  ghost predicate QuotedParts(buf: Text, p: nat, s: nat, e: nat, q: nat) {
    && p < s <= e < q <= |buf| && buf[p] == 34 && buf[e] == 34 && SkipWs(buf, p + 1) == s && SkipWs(buf, e + 1) == q
    && IsToken(buf[p + 1..s], buf[s..e]) && Blanks(buf[e + 1..q]) && (q < |buf| ==> !IsBlank(buf[q]))
    && ReadElem(buf, p) == (if Peek(buf, q) == 58 then ReadValue(buf, SkipWs(buf, q + 1), buf[s..e])
                            else if s < e then Ok(Elem([], VStr(buf[s..e])), q)
                            else ReadValue(buf, q, []))
  }

  lemma QuotedHas(buf: Text, p: nat) returns (s: nat, e: nat, q: nat)
    requires p < |buf| && buf[p] == 34 && ReadElem(buf, p).Ok?
    ensures QuotedParts(buf, p, s, e, q)
  {
    hide ReadElem, SkipWs, Until, ReadValue;
    QuotedEnds(buf, p);
    s := SkipWs(buf, p + 1);
    e := Until(buf, s, 34);
    q := SkipWs(buf, e + 1);
    SkippedBlank(buf, p + 1);
    SkippedBlank(buf, e + 1);
    QuoteBranch(buf, p, s, e);
    assert s < e ==> buf[s..e][0] == buf[s];
    hide Blanks;
  }

  lemma QuotedEnds(buf: Text, p: nat)
    requires p < |buf| && buf[p] == 34 && ReadElem(buf, p).Ok?
    ensures var s := SkipWs(buf, p + 1); s < |buf| && Until(buf, s, 34) < |buf|
  {
    hide SkipWs, Until, ReadValue;
  }

  ghost predicate IsCore(buf: Text, p: nat, k: Kid) {
    CoreOk(k) && At(buf, p, CoreText(k)) && KidEndsAt(buf, p + |CoreText(k)|, k) && k.gap == []
  }

  lemma {:induction false} QuotedIsKid(buf: Text, p: nat) returns (k: Kid)
    requires p < |buf| && buf[p] == 34 && ReadElem(buf, p).Ok?
    ensures IsCore(buf, p, k)
    decreases |buf| - p, 1
  {
    hide ReadElem, SkipWs, Until, ReadValue, At, IsCore, IsToken, Blanks, ReadsNode;
    var s, e, q := QuotedHas(buf, p);
    if Peek(buf, q) == 58 {
      SkippedBlank(buf, q + 1);
      var n := ValueIsNode(buf, SkipWs(buf, q + 1), buf[s..e]);
      k := NamedCore(buf, p, s, e, q, n);
    } else if s < e {
      k := RawCore(buf, p, s, e, q);
    } else {
      var n := ValueIsNode(buf, q, []);
      k := DroppedCore(buf, p, s, q, n);
    }
  }

  lemma NamedCore(buf: Text, p: nat, s: nat, e: nat, q: nat, n: Node) returns (k: Kid)
    requires QuotedParts(buf, p, s, e, q) && Peek(buf, q) == 58 && ReadsNode(buf, SkipWs(buf, q + 1), buf[s..e], n)
    ensures IsCore(buf, p, k)
  {
    hide ReadElem, SkipWs, ReadValue, At, NodeOk, IsToken, Blanks, NodeText, NodeValue, TagText;
    var q1 := SkipWs(buf, q + 1);
    SkippedBlank(buf, q + 1);
    var tag := Named(buf[p + 1..s], buf[s..e], buf[e + 1..q], buf[q + 1..q1]);
    k := Kid(tag, n, []);
    NamedAt(buf, p, s, e, q, q1);
    AtJoin(buf, p, TagText(tag), NodeText(n));
    CoreIs(k);
  }

  lemma CoreIs(k: Kid)
    ensures CoreText(k) == TagText(k.tag) + NodeText(k.node)
    ensures CoreOk(k) <==> TagOk(k.tag) && NodeOk(k.node) && (if k.tag.NoTag? then !k.node.String? else !k.node.Raw?)
  {}

  lemma RawCore(buf: Text, p: nat, s: nat, e: nat, q: nat) returns (k: Kid)
    requires QuotedParts(buf, p, s, e, q) && Peek(buf, q) != 58 && s < e
    ensures IsCore(buf, p, k)
  {
    hide ReadElem, SkipWs, ReadValue, At, IsToken, Blanks;
    var lead, token := buf[p + 1..s], buf[s..e];
    k := Kid(NoTag, Raw(lead, token), []);
    TokenAt(buf, p, s, e);
    var t := [34] + (lead + (token + [34]));
    CoreIs(k);
    assert token != [] && NodeOk(k.node) && NodeText(k.node) == t;
    assert CoreText(k) == [] + t == t && p + |t| == e + 1;
    assert EndsAt(buf, e + 1, k.node);
  }

  lemma DroppedCore(buf: Text, p: nat, s: nat, q: nat, n: Node) returns (k: Kid)
    requires QuotedParts(buf, p, s, s, q) && ReadsNode(buf, q, [], n)
    ensures IsCore(buf, p, k)
  {
    hide ReadElem, SkipWs, ReadValue, At, NodeOk, NodeText, NodeValue, TagText;
    var tag := Dropped(buf[p + 1..s], buf[s + 1..q]);
    k := Kid(tag, n, []);
    DroppedAt(buf, p, s, q);
    AtJoin(buf, p, TagText(tag), NodeText(n));
    CoreIs(k);
  }

  // A quoted token from its opening quote.
  lemma TokenAt(buf: Text, p: nat, s: nat, e: nat)
    requires p < s <= e < |buf| && buf[p] == 34 && buf[e] == 34
    ensures At(buf, p, [34] + (buf[p + 1..s] + (buf[s..e] + [34])))
  {
    hide At;
    AtSlice(buf, p + 1, s);
    AtSlice(buf, s, e);
    AtOne(buf, e);
    AtOne(buf, p);
    AtJoin(buf, s, buf[s..e], [34]);
    AtJoin(buf, p + 1, buf[p + 1..s], buf[s..e] + [34]);
    AtJoin(buf, p, [34], buf[p + 1..s] + (buf[s..e] + [34]));
  }

  lemma NamedAt(buf: Text, p: nat, s: nat, e: nat, q: nat, q1: nat)
    requires p < s <= e < q < q1 <= |buf| && buf[p] == 34 && buf[e] == 34 && buf[q] == 58
    ensures var t := Named(buf[p + 1..s], buf[s..e], buf[e + 1..q], buf[q + 1..q1]); At(buf, p, TagText(t)) && p + |TagText(t)| == q1
  {
    hide At;
    AtSlice(buf, q + 1, q1);
    AtOne(buf, q);
    AtJoin(buf, q, [58], buf[q + 1..q1]);
    AtSlice(buf, e + 1, q);
    AtJoin(buf, e + 1, buf[e + 1..q], [58] + buf[q + 1..q1]);
    AtOne(buf, e);
    AtJoin(buf, e, [34], buf[e + 1..q] + ([58] + buf[q + 1..q1]));
    AtSlice(buf, s, e);
    AtJoin(buf, s, buf[s..e], [34] + (buf[e + 1..q] + ([58] + buf[q + 1..q1])));
    AtSlice(buf, p + 1, s);
    AtJoin(buf, p + 1, buf[p + 1..s], buf[s..e] + ([34] + (buf[e + 1..q] + ([58] + buf[q + 1..q1]))));
    AtOne(buf, p);
    AtJoin(buf, p, [34], buf[p + 1..s] + (buf[s..e] + ([34] + (buf[e + 1..q] + ([58] + buf[q + 1..q1])))));
  }

  lemma DroppedAt(buf: Text, p: nat, s: nat, q: nat)
    requires p < s < q <= |buf| && buf[p] == 34 && buf[s] == 34
    ensures var t := Dropped(buf[p + 1..s], buf[s + 1..q]); At(buf, p, TagText(t)) && p + |TagText(t)| == q
  {
    hide At;
    AtSlice(buf, s + 1, q);
    AtOne(buf, s);
    AtJoin(buf, s, [34], buf[s + 1..q]);
    AtSlice(buf, p + 1, s);
    AtJoin(buf, p + 1, buf[p + 1..s], [34] + buf[s + 1..q]);
    AtOne(buf, p);
    AtJoin(buf, p, [34], buf[p + 1..s] + ([34] + buf[s + 1..q]));
  }

  lemma {:induction false} ChildrenAreKids(buf: Text, p: nat, close: byte) returns (kids: seq<Kid>, s: nat)
    requires p <= |buf| && (close == 93 || close == 125) && ReadChildren(buf, p, close).Ok?
    ensures s == SkipCommas(buf, p) && KidsOk(kids) && At(buf, s, KidsText(kids) + [close])
    decreases |buf| - p, 3
  {
    hide ReadChildren, SkipCommas, SkipWs, ReadElem, KidValue, At, KidsOk, KidsText, CoreText;
    s := SkipCommas(buf, p);
    InsideChildren(buf, p, close);
    ChildrenBranch(buf, p, s, close);
    if buf[s] == close {
      kids := [];
      NoKids(buf, s);
    } else {
      var k := ElemIsKid(buf, s);
      var q := s + |CoreText(k)|;
      var rest, s1 := ChildrenAreKids(buf, SkipWs(buf, q), close);
      kids := MoreKids(buf, s, k, rest, s1, close);
    }
  }

  lemma NoKids(buf: Text, s: nat)
    requires s < |buf|
    ensures KidsOk([]) && At(buf, s, KidsText([]) + [buf[s]])
  {
    assert KidsText([]) + [buf[s]] == [buf[s]];
  }

  lemma InsideChildren(buf: Text, p: nat, close: byte)
    requires p <= |buf| && (close == 93 || close == 125) && ReadChildren(buf, p, close).Ok?
    ensures SkipCommas(buf, p) < |buf|
  {
    hide SkipWs, SkipCommas, ReadValue;
  }

  // The first kid with the gap after it, and the others.
  lemma MoreKids(buf: Text, s: nat, k: Kid, rest: seq<Kid>, s1: nat, close: byte) returns (kids: seq<Kid>)
    requires s <= |buf| && ReadsKid(buf, s, k) && KidsOk(rest) && (close == 93 || close == 125)
    requires s1 == SkipGap(buf, s + |CoreText(k)|) && At(buf, s1, KidsText(rest) + [close])
    ensures KidsOk(kids) && At(buf, s, KidsText(kids) + [close])
  {
    hide At, CoreText, CoreOk, SkipWs, SkipCommas, SkipGap, KidsOk, KidsText, IsGap, KidValue, ReadElem, StartsFigure;
    var q := s + |CoreText(k)|;
    SkippedGap(buf, q);
    var k1 := k.(gap := buf[q..s1]);
    SameCore(k, buf[q..s1]);
    BodyStarts(buf, s1, rest, close);
    assert k1.node.Number? && k1.gap == [] ==> s1 == q && !IsFigure(buf[q]);
    hide KidEndsAt, ReadsKid;
    kids := [k1] + rest;
    KidsMake(k1, rest);
    AtSlice(buf, q, s1);
    AtThree(buf, s, CoreText(k1), k1.gap, KidsText(rest), close);
  }

  lemma SameCore(k: Kid, gap: Text)
    ensures CoreText(k.(gap := gap)) == CoreText(k) && (CoreOk(k.(gap := gap)) <==> CoreOk(k))
  {
    CoreIs(k);
    CoreIs(k.(gap := gap));
  }

  lemma AtThree(buf: Text, s: nat, a: Text, b: Text, c: Text, close: byte)
    requires At(buf, s, a) && At(buf, s + |a|, b) && At(buf, s + |a| + |b|, c + [close])
    ensures At(buf, s, (a + (b + c)) + [close])
  {
    hide At;
    AtJoin(buf, s + |a|, b, c + [close]);
    AtJoin(buf, s, a, b + (c + [close]));
    Regrouped(a, b, c, [close]);
  }

  lemma KidsMake(k: Kid, rest: seq<Kid>)
    requires CoreOk(k) && IsGap(k.gap) && KidsOk(rest) && (k.node.Number? && k.gap == [] && rest != [] ==> !StartsFigure(rest[0]))
    ensures KidsOk([k] + rest) && KidsText([k] + rest) == CoreText(k) + (k.gap + KidsText(rest))
  {
    hide CoreText, CoreOk, IsGap;
    var kids := [k] + rest;
    assert kids[0] == k && kids[1..] == rest && (|kids| > 1 ==> kids[1] == rest[0]);
  }

  // ---------------------------------------------------------------- documents

  // White space, an element, white space; what follows is not looked at.
  ghost predicate DocumentAt(buf: Text, lead: Text, k: Kid) {
    var q := |lead| + |CoreText(k)|;
    var end := q + |k.gap|;
    && Blanks(lead) && CoreOk(k) && Blanks(k.gap) && At(buf, 0, lead + (CoreText(k) + k.gap))
    && EndsAt(buf, q, k.node) && (end < |buf| ==> !IsBlank(buf[end]) && !(k.node.Raw? && buf[end] == 58))
  }

  lemma DocumentReads(buf: Text, lead: Text, k: Kid)
    requires DocumentAt(buf, lead, k)
    ensures ReadDocument(buf) == Ok(KidValue(k), |lead| + |CoreText(k)| + |k.gap|)
  {
    hide SkipWs, ReadElem, CoreOk, CoreText, KidValue, Blanks;
    var core := CoreText(k);
    AtSplit(buf, 0, lead, core + k.gap);
    AtSplit(buf, |lead|, core, k.gap);
    CoreStarts(k);
    assert buf[|lead|] == core[0];
    hide At;
    SkipTo(buf, 0, lead);
    SkipTo(buf, |lead| + |core|, k.gap);
    CoreReads(buf, |lead|, k);
  }

  // The reader accepts exactly these documents, and reads what they mean.
  lemma DocumentExactly(buf: Text, e: Elem, pos: nat)
    ensures ReadDocument(buf) == Ok(e, pos) <==>
      exists lead, k :: DocumentAt(buf, lead, k) && e == KidValue(k) && pos == |lead| + |CoreText(k)| + |k.gap|
  {
    if ReadDocument(buf) == Ok(e, pos) {
      var lead, k := ReadIsDocument(buf);
      DocumentReads(buf, lead, k);
    }
    if lead, k :| DocumentAt(buf, lead, k) && e == KidValue(k) && pos == |lead| + |CoreText(k)| + |k.gap| {
      DocumentReads(buf, lead, k);
    }
  }

  lemma ReadIsDocument(buf: Text) returns (lead: Text, k: Kid)
    requires ReadDocument(buf).Ok?
    ensures DocumentAt(buf, lead, k)
  {
    hide SkipWs, ReadElem, CoreOk, CoreText, At, Blanks, KidValue;
    SkippedBlank(buf, 0);
    var s := SkipWs(buf, 0);
    lead := buf[..s];
    var k0 := ElemIsKid(buf, s);
    var q := s + |CoreText(k0)|;
    SkippedBlank(buf, q);
    var end := SkipWs(buf, q);
    k := k0.(gap := buf[q..end]);
    CoreIs(k);
    CoreIs(k0);
    assert buf[0..s] == lead;
    AtSlice(buf, 0, s);
    AtSlice(buf, q, end);
    AtJoin(buf, s, CoreText(k), k.gap);
    AtJoin(buf, 0, lead, CoreText(k) + k.gap);
  }
}
