/** JSON documents: what json.c writes for a tree of elements, and what it reads from a text. */
module JsonTree {
  import opened Bytes
  import opened Options
  import opened JsonString

  // A number keeps its token, since the conversion to float is not part of this model.
  datatype Value =
    | VNull
    | VBool(isTrue: bool)
    | VNum(neg: bool, token: Text)
    | VStr(str: Text)
    | VArr(items: seq<Elem>)
    | VObj(members: seq<Elem>)

  datatype Elem = Elem(name: Text, value: Value)

  const COMMA: byte := 44
  const COLON: byte := 58
  const SPACE: byte := 32
  const LBRACKET: byte := 91
  const RBRACKET: byte := 93
  const LBRACE: byte := 123
  const RBRACE: byte := 125

  const NULL_TEXT: Text := [110, 117, 108, 108]
  const TRUE_TEXT: Text := [116, 114, 117, 101]
  const FALSE_TEXT: Text := [102, 97, 108, 115, 101]

  // ---------------------------------------------------------------- writing

  const INDENT_BUF := 100
  const INDENT_SIZE := 3
  const NAME_MIN_LEN := 20

  function Spaces(n: nat): Text { seq(n, _ => SPACE) }

  function Quoted(s: Text): Text { [QUOTE] + Escape(s) + [QUOTE] }

  // A name with its colon, padded to a minimum width.
  function WriteName(name: Text): Text {
    Quoted(name) + ([COLON, SPACE] + if |name| < NAME_MIN_LEN then Spaces(NAME_MIN_LEN - |name|) else [])
  }

  function WriteElem(t: Elem, indent: nat, noName: bool): Text
    requires NoNumbers(t.value)
    decreases t
  {
    (if t.name == [] then [] else Spaces(indent) + if noName then [] else WriteName(t.name)) + WriteValue(t.value, indent)
  }

  function WriteValue(v: Value, indent: nat): Text
    requires NoNumbers(v)
    decreases v
  {
    match v
    case VNull => NULL_TEXT
    case VBool(b) => if b then TRUE_TEXT else FALSE_TEXT
    case VStr(s) => Quoted(s)
    case VArr(items) => [LBRACKET, SPACE] + WriteChildren(items, indent, true) + [RBRACKET]
    case VObj(members) => [LBRACE, SPACE] + WriteChildren(members, indent, false) + [RBRACE]
  }

  function Deeper(indent: nat): nat { if indent < INDENT_BUF then indent + INDENT_SIZE else indent }

  // Unnamed children stand on one line, named ones on a line each.
  function WriteChildren(list: seq<Elem>, indent: nat, noName: bool): Text
    requires forall i :: 0 <= i < |list| ==> NoNumbers(list[i].value)
    decreases list, 1
  {
    if list == [] then []
    else if list[0].name == [] then WriteList(list, indent, noName, SPACE, [])
    else [NEWLINE] + WriteList(list, Deeper(indent), noName, NEWLINE, [NEWLINE] + Spaces(indent))
  }

  // Elements separated by a comma and one more character.
  function WriteList(list: seq<Elem>, indent: nat, noName: bool, after: byte, tail: Text): Text
    requires list != [] && forall i :: 0 <= i < |list| ==> NoNumbers(list[i].value)
    decreases list, 0
  {
    WriteElem(list[0], indent, noName) +
    if |list| == 1 then tail else [COMMA, after] + WriteList(list[1..], indent, noName, after, tail)
  }

  predicate NoNumbers(v: Value) {
    match v
    case VNum(_, _) => false
    case VArr(items) => forall i :: 0 <= i < |items| ==> NoNumbers(items[i].value)
    case VObj(members) => forall i :: 0 <= i < |members| ==> NoNumbers(members[i].value)
    case _ => true
  }

  // ---------------------------------------------------------------- scanning

  predicate IsSpace(c: byte) { c == SPACE || c == 9 || c == 13 || c == NEWLINE }

  // The buffer is followed by a zero byte.
  function Peek(buf: Text, p: nat): byte { if p < |buf| then buf[p] else 0 }

  function SkipWs(buf: Text, p: nat): (r: nat)
    ensures p <= r && (p <= |buf| ==> r <= |buf|)
    ensures r < |buf| ==> !IsSpace(buf[r])
    decreases |buf| - p
  {
    if p < |buf| && IsSpace(buf[p]) then SkipWs(buf, p + 1) else p
  }

  // The first position from p on that holds ch, or the end.
  function Until(buf: Text, p: nat, ch: byte): (r: nat)
    requires p <= |buf|
    ensures p <= r <= |buf| && (r < |buf| ==> buf[r] == ch) && ch !in buf[p..r]
    decreases |buf| - p
  {
    if p == |buf| || buf[p] == ch then p
    else
      var r := Until(buf, p + 1, ch);
      assert buf[p..r] == [buf[p]] + buf[p + 1..r];
      r
  }

  predicate IsDigit(c: byte) { c == 46 || 48 <= c <= 57 }

  predicate IsAlpha(c: byte) { 65 <= c <= 90 || 97 <= c <= 122 }

  function Digits(buf: Text, p: nat): (r: nat)
    requires p <= |buf|
    ensures p <= r <= |buf|
    decreases |buf| - p
  {
    if p < |buf| && IsDigit(buf[p]) then Digits(buf, p + 1) else p
  }

  predicate Has(buf: Text, p: nat, s: Text) { p + |s| <= |buf| && buf[p..p + |s|] == s }

  // ---------------------------------------------------------------- reading

  datatype Read<T> = Fail | Ok(value: T, pos: nat)

  function ReadElem(buf: Text, p: nat): (r: Read<Elem>)
    requires p <= |buf|
    ensures r.Ok? ==> p < r.pos <= |buf|
    decreases |buf| - p, 2
  {
    if Peek(buf, p) != QUOTE then ReadValue(buf, p, [])
    else
      var p1 := SkipWs(buf, p + 1);
      if p1 == |buf| then Fail
      else
        var p2 := Until(buf, p1, QUOTE);
        if p2 == |buf| then Fail
        else
          var token, p3 := buf[p1..p2], SkipWs(buf, p2 + 1);
          if Peek(buf, p3) == COLON then ReadValue(buf, SkipWs(buf, p3 + 1), token)
          else if token != [] then Ok(Elem([], VStr(token)), p3)
          else ReadValue(buf, p3, [])
  }

  function ReadValue(buf: Text, p: nat, name: Text): (r: Read<Elem>)
    requires p <= |buf|
    ensures r.Ok? ==> p < r.pos <= |buf| && r.value.name == name
    decreases |buf| - p, 1
  {
    var c := Peek(buf, p);
    if IsDigit(c) || c == 45 then ReadNumber(buf, p, name)
    else if c == QUOTE then
      var q := EndQuote(buf, p + 1);
      if q.None? then Fail
      else
        var s := Unescape(buf[p + 1..q.value]);
        if s.None? then Fail else Ok(Elem(name, VStr(s.value)), SkipWs(buf, q.value + 1))
    else if IsAlpha(c) then ReadWord(buf, p, name)
    else if c == LBRACKET then
      var list := ReadChildren(buf, SkipWs(buf, p + 1), RBRACKET);
      if list.Fail? then Fail else Ok(Elem(name, VArr(list.value)), list.pos)
    else if c == LBRACE then
      var list := ReadChildren(buf, SkipWs(buf, p + 1), RBRACE);
      if list.Fail? then Fail else Ok(Elem(name, VObj(list.value)), list.pos)
    else Fail
  }

  function ReadNumber(buf: Text, p: nat, name: Text): (r: Read<Elem>)
    requires p < |buf| && (IsDigit(buf[p]) || buf[p] == 45)
    ensures r.Ok? ==> p < r.pos <= |buf| && r.value.name == name
  {
    var neg := buf[p] == 45;
    var p1 := if neg then SkipWs(buf, p + 1) else p;
    var p2 := Digits(buf, p1);
    if p1 == p2 then Fail else Ok(Elem(name, VNum(neg, buf[p1..p2])), SkipWs(buf, p2))
  }

  // The comparison with "false" needs five characters to look at.
  function ReadWord(buf: Text, p: nat, name: Text): (r: Read<Elem>)
    requires p <= |buf|
    ensures r.Ok? ==> p < r.pos <= |buf| && r.value.name == name
  {
    if p + 5 > |buf| then Fail
    else if Has(buf, p, FALSE_TEXT) then Ok(Elem(name, VBool(false)), SkipWs(buf, p + 5))
    else if Has(buf, p, TRUE_TEXT) then Ok(Elem(name, VBool(true)), SkipWs(buf, p + 4))
    else if Has(buf, p, NULL_TEXT) then Ok(Elem(name, VNull), SkipWs(buf, p + 4))
    else Fail
  }

  function SkipCommas(buf: Text, p: nat): (r: nat)
    requires p <= |buf|
    ensures p <= r <= |buf|
    decreases |buf| - p
  {
    if Peek(buf, p) == COMMA then SkipCommas(buf, SkipWs(buf, p + 1)) else p
  }

  // The children after the opening bracket, and past the closing one.
  function ReadChildren(buf: Text, p: nat, close: byte): (r: Read<seq<Elem>>)
    requires p <= |buf| && close != 0
    ensures r.Ok? ==> p < r.pos <= |buf|
    decreases |buf| - p, 3
  {
    var p1 := SkipCommas(buf, p);
    if Peek(buf, p1) == close then Ok([], SkipWs(buf, p1 + 1))
    else
      var e := ReadElem(buf, p1);
      if e.Fail? then Fail
      else
        var rest := ReadChildren(buf, e.pos, close);
        if rest.Fail? then Fail else Ok([e.value] + rest.value, rest.pos)
  }

  // pj_json_parse
  function ReadDocument(buf: Text): Read<Elem> {
    if buf == [] then Fail else ReadElem(buf, SkipWs(buf, 0))
  }
}
