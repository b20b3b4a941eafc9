/** The JSON parser of json.c over the scanner of scanner.c. */
module JsonReader {
  import opened Bytes
  import opened Options
  import opened JsonString
  import opened JsonTree

  // A scanner that skips white space and newlines after each token. A method that returns false has
  // met a syntax error, which ends the parse.
  class Scanner {
    const buf: Text
    var cur: nat

    ghost predicate Valid()
      reads this
    {
      cur <= |buf|
    }

    constructor (buf: Text)
      ensures this.buf == buf && Valid() && cur == SkipWs(buf, 0)
    {
      this.buf := buf;
      cur := 0;
      new;
      SkipWhitespace();
    }

    method SkipWhitespace()
      requires Valid()
      modifies this`cur
      ensures Valid() && cur == SkipWs(buf, old(cur))
    {
      var s := cur;
      while s != |buf| && (buf[s] == SPACE || buf[s] == 9)
        invariant cur <= s <= |buf| && SkipWs(buf, s) == SkipWs(buf, cur)
      {
        s := s + 1;
      }
      if s != |buf| && (buf[s] == 13 || buf[s] == NEWLINE) {
        while s != |buf|
          invariant cur <= s <= |buf| && SkipWs(buf, s) == SkipWs(buf, cur)
          decreases |buf| - s
        {
          if buf[s] == 13 {
            s := s + 1;
            if s == |buf| {
              break;
            }
            if buf[s] == NEWLINE {
              s := s + 1;
            }
          } else if buf[s] == NEWLINE {
            s := s + 1;
          } else if buf[s] == SPACE || buf[s] == 9 {
            s := s + 1;
            while s != |buf| && (buf[s] == SPACE || buf[s] == 9)
              invariant cur <= s <= |buf| && SkipWs(buf, s) == SkipWs(buf, cur)
            {
              s := s + 1;
            }
          } else {
            break;
          }
        }
      }
      cur := s;
    }

    // Go to s, and past white space there.
    method MoveTo(s: nat)
      requires s <= |buf|
      modifies this`cur
      ensures Valid() && cur == SkipWs(buf, s)
    {
      cur := s;
      if cur < |buf| && buf[cur] <= 32 {
        SkipWhitespace();
      }
    }

    method GetChar() returns (ok: bool)
      requires Valid()
      modifies this`cur
      ensures Valid() && (ok <==> Peek(buf, old(cur)) != 0) && (ok ==> cur == SkipWs(buf, old(cur) + 1))
    {
      if cur >= |buf| || buf[cur] == 0 {
        return false;
      }
      MoveTo(cur + 1);
      ok := true;
    }

    method GetUntilCh(ch: byte) returns (ok: bool, token: Text)
      requires Valid() && !IsSpace(ch)
      modifies this`cur
      ensures Valid() && (ok <==> old(cur) < |buf|)
      ensures ok ==> cur == Until(buf, old(cur), ch) && token == buf[old(cur)..cur]
    {
      token := [];
      if cur >= |buf| {
        return false, token;
      }
      var s := cur;
      while s != |buf| && buf[s] != ch
        invariant cur <= s <= |buf| && Until(buf, s, ch) == Until(buf, cur, ch)
      {
        s := s + 1;
      }
      token := buf[cur..s];
      MoveTo(s);
      ok := true;
    }

    // The quoted string at the cursor, without its quotes.
    method GetQuote() returns (ok: bool, token: Text)
      requires Valid() && Peek(buf, cur) == QUOTE
      modifies this`cur
      ensures Valid() && (ok <==> EndQuote(buf, old(cur) + 1).Some?)
      ensures ok ==>
        var q := EndQuote(buf, old(cur) + 1).value; token == buf[old(cur) + 1..q] && cur == SkipWs(buf, q + 1)
    {
      token := [];
      var q := FindEndQuote(buf, cur + 1);
      if q.None? {
        return false, token;
      }
      token := buf[cur + 1..q.value];
      MoveTo(q.value + 1);
      ok := true;
    }

    method GetDigits() returns (ok: bool, token: Text)
      requires Valid()
      modifies this`cur
      ensures Valid() && (ok <==> Digits(buf, old(cur)) > old(cur))
      ensures ok ==> token == buf[old(cur)..Digits(buf, old(cur))] && cur == SkipWs(buf, Digits(buf, old(cur)))
    {
      token := [];
      if cur >= |buf| || !IsDigit(buf[cur]) {
        return false, token;
      }
      var s := cur;
      while s != |buf| && IsDigit(buf[s])
        invariant cur <= s <= |buf| && Digits(buf, s) == Digits(buf, cur)
      {
        s := s + 1;
      }
      token := buf[cur..s];
      MoveTo(s);
      ok := true;
    }
  }

  class Parser {
    const scanner: Scanner

    constructor (buf: Text)
      ensures fresh(scanner) && scanner.buf == buf && scanner.Valid() && scanner.cur == SkipWs(buf, 0)
    {
      scanner := new Scanner(buf);
    }

    // What a parsing method did is what r says.
    ghost predicate Did<T>(e: Option<T>, r: Read<T>)
      reads this, scanner
    {
      scanner.Valid() && (e.Some? <==> r.Ok?) && (e.Some? ==> e.value == r.value && scanner.cur == r.pos)
    }

    method ParseQuotedString() returns (s: Option<Text>)
      requires scanner.Valid() && Peek(scanner.buf, scanner.cur) == QUOTE
      modifies scanner`cur
      ensures scanner.Valid()
      ensures var q := EndQuote(scanner.buf, old(scanner.cur) + 1);
        if q.None? then s.None?
        else s == Unescape(scanner.buf[old(scanner.cur) + 1..q.value]) && scanner.cur == SkipWs(scanner.buf, q.value + 1)
    {
      var ok, token := scanner.GetQuote();
      if !ok {
        return None;
      }
      if BACKSLASH !in token {
        UnescapePlain(token);
        return Some(token);
      }
      s := UnescapeToken(token);
    }

    method ParseNumber(name: Text) returns (e: Option<Elem>)
      requires scanner.Valid() && scanner.cur < |scanner.buf|
      requires IsDigit(scanner.buf[scanner.cur]) || scanner.buf[scanner.cur] == 45
      modifies scanner`cur
      ensures Did(e, ReadNumber(scanner.buf, old(scanner.cur), name))
    {
      var neg := false;
      if scanner.buf[scanner.cur] == 45 {
        var _ := scanner.GetChar();
        neg := true;
      }
      var ok, token := scanner.GetDigits();
      e := if ok then Some(Elem(name, VNum(neg, token))) else None;
    }

    method ParseWord(name: Text) returns (e: Option<Elem>)
      requires scanner.Valid()
      modifies scanner`cur
      ensures Did(e, ReadWord(scanner.buf, old(scanner.cur), name))
    {
      var buf, p := scanner.buf, scanner.cur;
      if p + 5 > |buf| {
        return None;
      }
      if buf[p..p + 5] == FALSE_TEXT {
        scanner.MoveTo(p + 5);
        e := Some(Elem(name, VBool(false)));
      } else if buf[p..p + 4] == TRUE_TEXT {
        scanner.MoveTo(p + 4);
        e := Some(Elem(name, VBool(true)));
      } else if buf[p..p + 4] == NULL_TEXT {
        scanner.MoveTo(p + 4);
        e := Some(Elem(name, VNull));
      } else {
        e := None;
      }
    }

    method ParseValue(name: Text) returns (e: Option<Elem>)
      requires scanner.Valid()
      modifies scanner`cur
      ensures Did(e, ReadValue(scanner.buf, old(scanner.cur), name))
      decreases |scanner.buf| - scanner.cur, 1
    {
      hide ReadChildren, ReadNumber, ReadWord, Unescape, EndQuote, SkipWs;
      var c := Peek(scanner.buf, scanner.cur);
      if IsDigit(c) || c == 45 {
        e := ParseNumber(name);
      } else if c == QUOTE {
        var s := ParseQuotedString();
        e := if s.Some? then Some(Elem(name, VStr(s.value))) else None;
      } else if IsAlpha(c) {
        e := ParseWord(name);
      } else if c == LBRACKET {
        var list := ParseChildren(RBRACKET);
        e := if list.Some? then Some(Elem(name, VArr(list.value))) else None;
      } else if c == LBRACE {
        var list := ParseChildren(RBRACE);
        e := if list.Some? then Some(Elem(name, VObj(list.value))) else None;
      } else {
        e := None;
      }
    }

    // parse_elem_throw
    method ParseElem() returns (e: Option<Elem>)
      requires scanner.Valid()
      modifies scanner`cur
      ensures Did(e, ReadElem(scanner.buf, old(scanner.cur)))
      decreases |scanner.buf| - scanner.cur, 2
    {
      hide ReadValue, SkipWs, Until;
      var name: Text := [];
      if Peek(scanner.buf, scanner.cur) == QUOTE {
        var ok := scanner.GetChar();
        var token;
        ok, token := scanner.GetUntilCh(QUOTE);
        if !ok {
          return None;
        }
        ok := scanner.GetChar();
        if !ok {
          return None;
        }
        if Peek(scanner.buf, scanner.cur) == COLON {
          ok := scanner.GetChar();
          name := token;
        } else if token != [] {
          return Some(Elem([], VStr(token)));
        }
      }
      e := ParseValue(name);
    }

    // parse_children
    method ParseChildren(close: byte) returns (list: Option<seq<Elem>>)
      requires scanner.Valid() && Peek(scanner.buf, scanner.cur) != 0 && close != 0 && close != COMMA
      modifies scanner`cur
      ensures Did(list, ReadChildren(scanner.buf, SkipWs(scanner.buf, old(scanner.cur) + 1), close))
      decreases |scanner.buf| - scanner.cur, 0
    {
      hide ReadElem, SkipWs, ReadChildren, Continues;
      var ok := scanner.GetChar();
      ghost var start := scanner.cur;
      ghost var whole := ReadChildren(scanner.buf, start, close);
      var children: seq<Elem> := [];
      StartList(whole);
      while Peek(scanner.buf, scanner.cur) != close
        invariant scanner.Valid() && start <= scanner.cur
        invariant Continues(whole, children, ReadChildren(scanner.buf, scanner.cur, close))
        decreases |scanner.buf| - scanner.cur
      {
        while Peek(scanner.buf, scanner.cur) == COMMA
          invariant scanner.Valid() && start <= scanner.cur
          invariant Continues(whole, children, ReadChildren(scanner.buf, scanner.cur, close))
          decreases |scanner.buf| - scanner.cur
        {
          CommaFirst(scanner.buf, scanner.cur, close);
          ok := scanner.GetChar();
        }
        if Peek(scanner.buf, scanner.cur) == close {
          break;
        }
        ChildFirst(scanner.buf, scanner.cur, close, whole, children);
        var child := ParseElem();
        if child.None? {
          return None;
        }
        children := children + [child.value];
      }
      CloseFirst(scanner.buf, scanner.cur, close);
      ok := scanner.GetChar();
      list := Some(children);
      EndList(whole, children, scanner.cur);
    }
  }

  // whole is children and then rest.
  ghost predicate Continues(whole: Read<seq<Elem>>, children: seq<Elem>, rest: Read<seq<Elem>>) {
    if rest.Fail? then whole.Fail? else whole == Ok(children + rest.value, rest.pos)
  }

  lemma StartList(whole: Read<seq<Elem>>)
    ensures Continues(whole, [], whole)
  {
    assert whole.Ok? ==> [] + whole.value == whole.value;
  }

  lemma EndList(whole: Read<seq<Elem>>, children: seq<Elem>, p: nat)
    ensures Continues(whole, children, Ok([], p)) ==> whole == Ok(children, p)
  {
    assert children + [] == children;
  }

  lemma CommaFirst(buf: Text, p: nat, close: byte)
    requires Peek(buf, p) == COMMA && close != 0 && close != COMMA
    ensures ReadChildren(buf, p, close) == ReadChildren(buf, SkipWs(buf, p + 1), close)
  {
    hide SkipWs, ReadElem;
  }

  lemma CloseFirst(buf: Text, p: nat, close: byte)
    requires Peek(buf, p) == close && close != 0 && close != COMMA
    ensures ReadChildren(buf, p, close) == Ok([], SkipWs(buf, p + 1))
  {}

  lemma ChildFirst(buf: Text, p: nat, close: byte, whole: Read<seq<Elem>>, children: seq<Elem>)
    requires p <= |buf| && Peek(buf, p) != COMMA && Peek(buf, p) != close && close != 0
    requires Continues(whole, children, ReadChildren(buf, p, close))
    ensures var e := ReadElem(buf, p);
      if e.Fail? then whole.Fail? else Continues(whole, children + [e.value], ReadChildren(buf, e.pos, close))
  {
    hide ReadElem;
    var e := ReadElem(buf, p);
    if e.Ok? {
      var rest := ReadChildren(buf, e.pos, close);
      if rest.Ok? { assert children + ([e.value] + rest.value) == (children + [e.value]) + rest.value; }
    }
  }

  // pj_json_parse; left is the number of bytes that were not read.
  method ParseDocument(buf: Text) returns (root: Option<Elem>, left: nat)
    ensures root.Some? <==> ReadDocument(buf).Ok?
    ensures root.Some? ==> root.value == ReadDocument(buf).value && left == |buf| - ReadDocument(buf).pos
  {
    hide ReadElem;
    if buf == [] {
      return None, 0;
    }
    var parser := new Parser(buf);
    root := parser.ParseElem();
    left := |buf| - parser.scanner.cur;
  }
}
