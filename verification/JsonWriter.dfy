/** The JSON writer of json.c, writing into a caller's buffer (pj_json_write). */
module JsonWriter {
  import opened Bytes
  import opened JsonString
  import opened JsonTree

  // The indents of the tree fit the indent buffer.
  predicate IndentsFit(v: Value, indent: nat) {
    indent <= INDENT_BUF &&
    match v
    case VArr(items) => ChildrenFit(items, indent)
    case VObj(members) => ChildrenFit(members, indent)
    case _ => true
  }

  predicate ChildrenFit(list: seq<Elem>, indent: nat) {
    list == [] ||
    (var inner := if list[0].name == [] then indent else Deeper(indent);
    forall i :: 0 <= i < |list| ==> IndentsFit(list[i].value, inner))
  }

  // Nesting of containers whose children have names.
  function Depth(v: Value): nat {
    match v
    case VArr(items) => ListDepth(items)
    case VObj(members) => ListDepth(members)
    case _ => 0
  }

  function ListDepth(list: seq<Elem>): nat
    decreases list, 1
  {
    if list == [] then 0 else MaxDepth(list) + if list[0].name == [] then 0 else 1
  }

  function MaxDepth(list: seq<Elem>): (m: nat)
    ensures forall i :: 0 <= i < |list| ==> Depth(list[i].value) <= m
    decreases list, 0
  {
    if list == [] then 0
    else
      var m, d := MaxDepth(list[1..]), Depth(list[0].value);
      assert forall i :: 1 <= i < |list| ==> list[i] == list[1..][i - 1];
      if m < d then d else m
  }

  // Some child is as deep as the list.
  lemma {:induction false} DeepestChild(list: seq<Elem>) returns (i: nat)
    requires list != []
    ensures i < |list| && Depth(list[i].value) == MaxDepth(list)
    decreases |list|
  {
    i := 0;
    if |list| > 1 && MaxDepth(list[1..]) >= Depth(list[0].value) {
      i := DeepestChild(list[1..]);
      i := i + 1;
    }
  }

  // The indents fit exactly up to 33 levels of named children.
  lemma {:induction false} DepthFits(v: Value, indent: nat)
    requires indent % INDENT_SIZE == 0 && indent < INDENT_BUF
    ensures IndentsFit(v, indent) <==> indent + INDENT_SIZE * Depth(v) < INDENT_BUF
    decreases v
  {
    if v.VArr? || v.VObj? {
      var list := if v.VArr? then v.items else v.members;
      if list != [] { ListFits(v, list, indent); }
    }
  }

  lemma {:induction false} ListFits(v: Value, list: seq<Elem>, indent: nat)
    requires indent % INDENT_SIZE == 0 && indent < INDENT_BUF && list != [] && (v == VArr(list) || v == VObj(list))
    ensures ChildrenFit(list, indent) <==> indent + INDENT_SIZE * ListDepth(list) < INDENT_BUF
    decreases v, 0
  {
    var inner := if list[0].name == [] then indent else Deeper(indent);
    if inner < INDENT_BUF {
      forall i | 0 <= i < |list| ensures IndentsFit(list[i].value, inner) <==> inner + INDENT_SIZE * Depth(list[i].value) < INDENT_BUF {
        DepthFits(list[i].value, inner);
      }
      var i := DeepestChild(list);
      assert IndentsFit(list[i].value, inner) <==> inner + INDENT_SIZE * MaxDepth(list) < INDENT_BUF;
    } else {
      assert !IndentsFit(list[0].value, inner);
    }
  }

  // Objects nested n deep.
  function Nest(name: Text, n: nat): (v: Value)
    requires name != []
    ensures Depth(v) == n
  {
    if n == 0 then VNull
    else
      var list := [Elem(name, Nest(name, n - 1))];
      assert list[1..] == [] && MaxDepth(list[1..]) == 0;
      assert MaxDepth(list) == n - 1 && ListDepth(list) == n;
      VObj(list)
  }

  // So 34 nested objects overflow the buffer.
  lemma DeepTreeOverflows(name: Text)
    requires name != []
    ensures IndentsFit(Nest(name, 33), 0) && !IndentsFit(Nest(name, 34), 0)
  {
    hide IndentsFit, Nest;
    DepthFits(Nest(name, 33), 0);
    DepthFits(Nest(name, 34), 0);
  }

  // ---------------------------------------------------------------- the layout

  // Values stand in one column: with names of up to 20 characters that need no escape, 24 characters after the
  // beginning of the name.
  lemma ValuesAreAligned(name: Text, value: Value, indent: nat)
    requires name != [] && |name| <= 20 && (forall i :: 0 <= i < |name| ==> Unescaped(name[i])) && NoNumbers(value)
    ensures var text := WriteElem(Elem(name, value), indent, false);
      |text| >= indent + 24 && text[indent + 24..] == WriteValue(value, indent)
    ensures var text := WriteElem(Elem(name, value), indent, false);
      forall i :: 0 <= i < indent + 24 ==>
        text[i] == if i < indent then 32
                   else if i == indent || i == indent + |name| + 1 then 34
                   else if i <= indent + |name| then name[i - indent - 1]
                   else if i == indent + |name| + 2 then 58 else 32
  {
    EscapePlain(name);
    var text, start := WriteElem(Elem(name, value), indent, false), Spaces(indent) + WriteName(name);
    assert text == start + WriteValue(value, indent) && |start| == indent + 24;
    hide Escape;
    forall i | 0 <= i < indent + 24 ensures text[i] == start[i] {}
  }

  // Texts with a comma and one more character between them.
  function Separated(texts: seq<Text>, after: byte): Text {
    if texts == [] then [] else if |texts| == 1 then texts[0] else texts[0] + ([44, after] + Separated(texts[1..], after))
  }

  function Texts(list: seq<Elem>, indent: nat, noName: bool): (ts: seq<Text>)
    requires forall i :: 0 <= i < |list| ==> NoNumbers(list[i].value)
    ensures |ts| == |list|
  {
    seq(|list|, i requires 0 <= i < |list| => WriteElem(list[i], indent, noName))
  }

  lemma {:induction false} ListIsSeparated(list: seq<Elem>, indent: nat, noName: bool, after: byte, tail: Text)
    requires list != [] && forall i :: 0 <= i < |list| ==> NoNumbers(list[i].value)
    ensures WriteList(list, indent, noName, after, tail) == Separated(Texts(list, indent, noName), after) + tail
    decreases |list|
  {
    hide WriteElem;
    var ts := Texts(list, indent, noName);
    if |list| > 1 {
      ListIsSeparated(list[1..], indent, noName, after, tail);
      assert ts[1..] == Texts(list[1..], indent, noName);
      var a, b, c := ts[0], [44, after], Separated(ts[1..], after);
      assert a + (b + (c + tail)) == (a + (b + c)) + tail;
    }
  }

  // Unnamed children stand on one line, with a comma and a space between them; named ones on lines of their own,
  // each but the last followed by a comma.
  lemma ChildrenAreSeparated(list: seq<Elem>, indent: nat)
    requires list != [] && indent + 3 <= 99 && forall i :: 0 <= i < |list| ==> NoNumbers(list[i].value)
    ensures list[0].name == [] ==> WriteValue(VArr(list), indent) == [91, 32] + Separated(Texts(list, indent, true), 32) + [93]
    ensures list[0].name == [] ==> WriteValue(VObj(list), indent) == [123, 32] + Separated(Texts(list, indent, false), 32) + [125]
    ensures list[0].name != [] ==>
      WriteValue(VObj(list), indent) == [123, 32] + ([10] + (Separated(Texts(list, indent + 3, false), 10) + ([10] + Spaces(indent)))) + [125]
  {
    hide WriteList, Separated, Texts, Spaces;
    if list[0].name == [] {
      ListIsSeparated(list, indent, true, 32, []);
      ListIsSeparated(list, indent, false, 32, []);
      assert Separated(Texts(list, indent, true), 32) + [] == Separated(Texts(list, indent, true), 32);
      assert Separated(Texts(list, indent, false), 32) + [] == Separated(Texts(list, indent, false), 32);
    } else {
      ListIsSeparated(list, indent + 3, false, 10, [10] + Spaces(indent));
    }
  }

  // Members stand on lines of their own, three columns further in; the bracket that closes them stands where
  // the line of the one that opens them begins.
  lemma MembersAreIndented(list: seq<Elem>, indent: nat)
    requires list != [] && list[0].name != [] && indent + 3 <= 99 && forall i :: 0 <= i < |list| ==> NoNumbers(list[i].value)
    ensures var text := WriteValue(VObj(list), indent);
      && |text| > indent + 6 && text[..3] == [123, 32, 10] && text[3..indent + 6] == Spaces(indent + 3) && text[indent + 6] == 34
      && text[|text| - indent - 2..] == [10] + Spaces(indent) + [125]
  {
    hide WriteValue, WriteList, WriteName, Escape, Spaces;
    var tail := [NEWLINE] + Spaces(indent);
    var first, body := Spaces(indent + 3) + WriteName(list[0].name), WriteList(list, indent + 3, false, NEWLINE, tail);
    ListEnds(list, indent + 3, false, NEWLINE, tail);
    ListBegins(list, indent + 3, tail);
    var text := WriteValue(VObj(list), indent);
    ObjectText(list, indent);
    SpacesLength(indent);
    SpacesLength(indent + 3);
    hide NoNumbers;
    assert first[..indent + 3] == Spaces(indent + 3);
    FrameBegins(text, body, first, indent + 3);
    FrameEnds(text, body, tail);
  }

  lemma FrameBegins(text: Text, body: Text, first: Text, n: nat)
    requires text == [123, 32, 10] + body + [125] && n < |first| <= |body| && body[..|first|] == first
    ensures text[..3] == [123, 32, 10] && text[3..n + 3] == first[..n] && text[n + 3] == first[n]
  {
    forall i | 0 <= i <= n ensures text[i + 3] == first[i] { assert body[..|first|][i] == first[i]; }
  }

  lemma FrameEnds(text: Text, body: Text, tail: Text)
    requires text == [123, 32, 10] + body + [125] && |tail| <= |body| && body[|body| - |tail|..] == tail
    ensures text[|text| - |tail| - 1..] == tail + [125]
  {}

  lemma SpacesLength(n: nat)
    ensures |Spaces(n)| == n
  {}

  lemma ObjectText(list: seq<Elem>, indent: nat)
    requires list != [] && list[0].name != [] && indent + 3 <= 99 && forall i :: 0 <= i < |list| ==> NoNumbers(list[i].value)
    ensures WriteValue(VObj(list), indent) == [123, 32, 10] + WriteList(list, indent + 3, false, NEWLINE, [NEWLINE] + Spaces(indent)) + [125]
  {
    hide WriteList, Spaces;
    var body := WriteList(list, indent + 3, false, NEWLINE, [NEWLINE] + Spaces(indent));
    assert WriteChildren(list, indent, false) == [10] + body;
    assert [123, 32] + ([10] + body) == [123, 32, 10] + body;
  }

  lemma ListBegins(list: seq<Elem>, indent: nat, tail: Text)
    requires list != [] && list[0].name != [] && forall i :: 0 <= i < |list| ==> NoNumbers(list[i].value)
    ensures var first, body := Spaces(indent) + WriteName(list[0].name), WriteList(list, indent, false, NEWLINE, tail);
      |body| >= |first| && body[..|first|] == first && |first| > indent && first[indent] == 34
  {
    hide WriteValue, Escape;
  }

  lemma {:induction false} ListEnds(list: seq<Elem>, indent: nat, noName: bool, after: byte, tail: Text)
    requires list != [] && forall i :: 0 <= i < |list| ==> NoNumbers(list[i].value)
    ensures var body := WriteList(list, indent, noName, after, tail); |body| >= |tail| && body[|body| - |tail|..] == tail
    decreases |list|
  {
    if |list| > 1 {
      ListEnds(list[1..], indent, noName, after, tail);
      hide WriteElem;
    }
  }

  class Writer {
    const buffer: array<byte>
    var pos: nat
    var size: nat        // room left
    var indent: nat

    ghost predicate Valid()
      reads this
    {
      pos + size <= buffer.Length
    }

    constructor (buffer: array<byte>, size: nat)
      requires size <= buffer.Length
      ensures this.buffer == buffer && Valid() && pos == 0 && this.size == size && indent == 0
    {
      this.buffer, this.size, pos, indent := buffer, size, 0, 0;
    }

    // text was written, unless there was no room for it and one byte more.
    twostate predicate Wrote(text: Text, ok: bool)
      reads this, buffer
    {
      && Valid() && (ok <==> |text| + 1 < old(size))
      && (ok ==> pos == old(pos) + |text| && size == old(size) - |text| && indent == old(indent) &&
                 pos <= buffer.Length && old(pos) <= buffer.Length && buffer[..pos] == old(buffer[..])[..old(pos)] + text)
    }

    // buf_writer
    method Emit(s: Text) returns (ok: bool)
      requires Valid()
      modifies this, buffer
      ensures Wrote(s, ok)
    {
      if |s| + 1 >= size {
        return false;
      }
      Write(buffer, pos, s);
      pos, size := pos + |s|, size - |s|;
      ok := true;
    }

    // write_string_escaped
    method WriteEscaped(s: Text) returns (ok: bool)
      requires Valid() && size > 1
      modifies this, buffer
      ensures Wrote(Escape(s), ok)
    {
      hide Escape;
      var chunk := new byte[ESC_BUF_LEN](_ => 0);
      var ip := 0;
      ghost var start, before := pos, buffer[..pos];
      assert s[..0] == [] && Escape([]) == [] by { EscapeNothing(); }
      while ip != |s|
        invariant ip <= |s| && Valid() && indent == old(indent) && size > 1 && fresh(chunk)
        invariant pos == start + |Escape(s[..ip])| && size == old(size) - |Escape(s[..ip])|
        invariant buffer[..pos] == before + Escape(s[..ip])
        decreases |s| - ip
      {
        var op, next := FillChunk(s, ip, chunk);
        ghost var e := Escape(s[ip..next]);
        EscapePieces(s, ip, next);
        ok := Emit(chunk[..op]);
        if !ok {
          return false;
        }
        assert before + Escape(s[..ip]) + e == before + (Escape(s[..ip]) + e);
        ip := next;
      }
      assert s[..ip] == s;
      ok := true;
    }

    // Text with something written before and after it.
    method WriteEscapedIn(before: Text, s: Text, after: Text) returns (ok: bool)
      requires Valid() && before != []
      modifies this, buffer
      ensures Wrote(before + Escape(s) + after, ok)
    {
      hide Escape;
      ok := Emit(before);
      if !ok {
        return false;
      }
      ok := WriteEscaped(s);
      if !ok {
        return false;
      }
      ok := Emit(after);
      ghost var out := old(buffer[..])[..old(pos)];
      Grouped(out, before, Escape(s), after);
    }

    method WriteMemberName(name: Text) returns (ok: bool)
      requires Valid()
      modifies this, buffer
      ensures Wrote(WriteName(name), ok)
    {
      hide Escape;
      ok := WriteEscapedIn([QUOTE], name, [QUOTE, COLON, SPACE]);
      ghost var first := [QUOTE] + Escape(name) + [QUOTE, COLON, SPACE];
      ghost var pad := if |name| < NAME_MIN_LEN then Spaces(NAME_MIN_LEN - |name|) else [];
      ghost var out := old(buffer[..])[..old(pos)];
      assert WriteName(name) == first + pad;
      assert out + first + pad == out + (first + pad);
      if !ok {
        return false;
      }
      if |name| < NAME_MIN_LEN {
        ok := Emit(Spaces(NAME_MIN_LEN - |name|));
      }
    }

    // elem_write
    method PutElem(t: Elem, noName: bool) returns (ok: bool)
      requires Valid() && NoNumbers(t.value) && IndentsFit(t.value, indent)
      modifies this, buffer
      ensures Wrote(WriteElem(t, old(indent), noName), ok)
      decreases t, 1
    {
      hide NoNumbers, IndentsFit, WriteValue, WriteName;
      ghost var out, depth := old(buffer[..])[..old(pos)], indent;
      ghost var name, w := WriteName(t.name), WriteValue(t.value, indent);
      if t.name != [] {
        assert indent <= INDENT_BUF by { IndentFits(t.value, indent); }
        ok := Emit(Spaces(indent));
        if !ok {
          return false;
        }
        if !noName {
          ok := WriteMemberName(t.name);
          if !ok {
            return false;
          }
        }
        assert out + Spaces(depth) + name + w == out + (Spaces(depth) + name + w);
        assert Spaces(depth) + [] == Spaces(depth) && out + Spaces(depth) + w == out + (Spaces(depth) + w);
      } else {
        assert [] + w == w;
      }
      ok := PutValue(t.value);
    }

    method PutValue(v: Value) returns (ok: bool)
      requires Valid() && NoNumbers(v) && IndentsFit(v, indent)
      modifies this, buffer
      ensures Wrote(WriteValue(v, old(indent)), ok)
      decreases v, 1
    {
      hide WriteChildren, Escape;
      match v
      case VNull => ok := Emit(NULL_TEXT);
      case VBool(b) => ok := Emit(if b then TRUE_TEXT else FALSE_TEXT);
      case VStr(s) => ok := WriteEscapedIn([QUOTE], s, [QUOTE]);
      case VArr(items) => ok := PutChildren(items, true, LBRACKET, RBRACKET);
      case VObj(members) => ok := PutChildren(members, false, LBRACE, RBRACE);
    }

    // write_children
    method PutChildren(list: seq<Elem>, noName: bool, open: byte, close: byte) returns (ok: bool)
      requires Valid() && (forall i :: 0 <= i < |list| ==> NoNumbers(list[i].value)) && ChildrenFit(list, indent) && indent <= INDENT_BUF
      modifies this, buffer
      ensures Wrote([open, SPACE] + WriteChildren(list, old(indent), noName) + [close], ok)
      decreases list, 2
    {
      hide NoNumbers, WriteChildren, ChildrenFit;
      ghost var out := old(buffer[..])[..old(pos)];
      ok := Emit([open]);
      if !ok {
        return false;
      }
      ok := Emit([SPACE]);
      if !ok {
        return false;
      }
      assert out + [open] + [SPACE] == out + [open, SPACE];
      if list != [] {
        ok := PutLines(list, noName);
        if !ok {
          return false;
        }
      } else {
        assert WriteChildren(list, indent, noName) == [] by { WriteNoChildren(indent, noName); }
      }
      ok := Emit([close]);
      Grouped(out, [open, SPACE], WriteChildren(list, old(indent), noName), [close]);
    }

    method PutLines(list: seq<Elem>, noName: bool) returns (ok: bool)
      requires Valid() && list != [] && (forall i :: 0 <= i < |list| ==> NoNumbers(list[i].value))
      requires ChildrenFit(list, indent) && indent <= INDENT_BUF
      modifies this, buffer
      ensures Wrote(WriteChildren(list, old(indent), noName), ok)
      decreases list, 1
    {
      hide NoNumbers, WriteList, IndentsFit;
      if list[0].name == [] {
        ok := PutList(list, noName, SPACE, []);
      } else {
        ghost var out := old(buffer[..])[..old(pos)];
        var added := indent < INDENT_BUF;
        if added {
          indent := indent + INDENT_SIZE;
        }
        ok := Emit([NEWLINE]);
        if !ok {
          return false;
        }
        ghost var l := WriteList(list, indent, noName, NEWLINE, [NEWLINE]);
        WriteListTail(list, indent, noName, NEWLINE, [NEWLINE], Spaces(old(indent)));
        ok := PutList(list, noName, NEWLINE, [NEWLINE]);
        if !ok {
          return false;
        }
        if added {
          indent := indent - INDENT_SIZE;
        }
        ok := Emit(Spaces(indent));
        Grouped(out, [NEWLINE], l, Spaces(indent));
        assert [NEWLINE] + l + Spaces(indent) == [NEWLINE] + (l + Spaces(indent));
      }
    }

    // One child and what separates it from the next.
    method PutItem(t: Elem, noName: bool, sep: Text) returns (ok: bool)
      requires Valid() && NoNumbers(t.value) && IndentsFit(t.value, indent)
      modifies this, buffer
      ensures Wrote(WriteElem(t, old(indent), noName) + sep, ok)
      decreases t, 2
    {
      hide NoNumbers, IndentsFit, WriteElem;
      ghost var out, e := old(buffer[..])[..old(pos)], WriteElem(t, indent, noName);
      ok := PutElem(t, noName);
      if ok && sep != [] {
        ok := Emit(sep);
      }
      assert out + e + sep == out + (e + sep);
    }

    // The loop over the children.
    method PutList(list: seq<Elem>, noName: bool, after: byte, tail: Text) returns (ok: bool)
      requires Valid() && list != [] && forall i :: 0 <= i < |list| ==> NoNumbers(list[i].value) && IndentsFit(list[i].value, indent)
      modifies this, buffer
      ensures Wrote(WriteList(list, old(indent), noName, after, tail), ok)
      decreases list, 0
    {
      hide NoNumbers, IndentsFit, WriteElem, WriteList, WriteRest;
      ghost var out, depth := old(buffer[..])[..old(pos)], indent;
      ghost var whole := WriteList(list, depth, noName, after, tail);
      ghost var done: Text := [];
      StartWriting(list, depth, noName, after, tail);
      assert out + done == out;
      for i := 0 to |list|
        invariant Valid() && indent == depth && pos == old(pos) + |done| && size == old(size) - |done| && (i > 0 ==> size > 1)
        invariant buffer[..pos] == out + done
        invariant whole == done + WriteRest(list, i, depth, noName, after, tail)
      {
        var sep := if i + 1 < |list| then [COMMA, after] else tail;
        ghost var piece := WriteElem(list[i], depth, noName) + sep;
        RestStep(list, i, depth, noName, after, tail, done);
        ok := PutItem(list[i], noName, sep);
        if !ok {
          return false;
        }
        assert (out + done) + piece == out + (done + piece);
        done := done + piece;
      }
      EndWriting(list, depth, noName, after, tail, done);
      ok := true;
    }
  }

  // What the loop over the children still has to write.
  ghost function WriteRest(list: seq<Elem>, i: nat, indent: nat, noName: bool, after: byte, tail: Text): Text
    requires i <= |list| && forall i :: 0 <= i < |list| ==> NoNumbers(list[i].value)
  {
    if i < |list| then WriteList(list[i..], indent, noName, after, tail) else []
  }

  lemma StartWriting(list: seq<Elem>, indent: nat, noName: bool, after: byte, tail: Text)
    requires list != [] && forall i :: 0 <= i < |list| ==> NoNumbers(list[i].value)
    ensures WriteList(list, indent, noName, after, tail) == [] + WriteRest(list, 0, indent, noName, after, tail)
  {
    hide WriteList, NoNumbers;
    assert list[0..] == list;
  }

  lemma EndWriting(list: seq<Elem>, indent: nat, noName: bool, after: byte, tail: Text, done: Text)
    requires forall i :: 0 <= i < |list| ==> NoNumbers(list[i].value)
    ensures done + WriteRest(list, |list|, indent, noName, after, tail) == done
  {}

  lemma RestStep(list: seq<Elem>, i: nat, indent: nat, noName: bool, after: byte, tail: Text, done: Text)
    requires i < |list| && forall i :: 0 <= i < |list| ==> NoNumbers(list[i].value)
    ensures done + WriteRest(list, i, indent, noName, after, tail) ==
            (done + (WriteElem(list[i], indent, noName) + if i + 1 < |list| then [COMMA, after] else tail))
            + WriteRest(list, i + 1, indent, noName, after, tail)
  {
    hide WriteElem, WriteList, NoNumbers;
    WriteListStep(list, i, indent, noName, after, tail);
    var e, rest := WriteElem(list[i], indent, noName), WriteRest(list, i + 1, indent, noName, after, tail);
    Regroup2(done, e, if i + 1 < |list| then [COMMA, after] else tail, rest);
    assert tail + [] == tail;
  }

  lemma Regroup2(a: Text, b: Text, c: Text, d: Text)
    ensures a + (b + (c + d)) == (a + (b + c)) + d
  {}

  lemma IndentFits(v: Value, indent: nat)
    requires IndentsFit(v, indent)
    ensures indent <= INDENT_BUF
  {}

  lemma WriteNoChildren(indent: nat, noName: bool)
    ensures WriteChildren([], indent, noName) == []
  {}

  lemma WriteListStep(list: seq<Elem>, i: nat, indent: nat, noName: bool, after: byte, tail: Text)
    requires i < |list| && forall i :: 0 <= i < |list| ==> NoNumbers(list[i].value)
    ensures WriteList(list[i..], indent, noName, after, tail) ==
            WriteElem(list[i], indent, noName) +
            if i + 1 == |list| then tail else [COMMA, after] + WriteList(list[i + 1..], indent, noName, after, tail)
  {
    hide WriteElem;
    assert list[i..][0] == list[i] && (i + 1 < |list| ==> list[i..][1..] == list[i + 1..]);
  }

  lemma {:induction false} WriteListTail(list: seq<Elem>, indent: nat, noName: bool, after: byte, tail: Text, more: Text)
    requires list != [] && forall i :: 0 <= i < |list| ==> NoNumbers(list[i].value)
    ensures WriteList(list, indent, noName, after, tail + more) == WriteList(list, indent, noName, after, tail) + more
    decreases |list|
  {
    hide WriteElem, NoNumbers;
    var e := WriteElem(list[0], indent, noName);
    if |list| == 1 {
      assert e + (tail + more) == e + tail + more;
    } else {
      WriteListTail(list[1..], indent, noName, after, tail, more);
      var rest := WriteList(list[1..], indent, noName, after, tail);
      assert e + ([COMMA, after] + (rest + more)) == e + ([COMMA, after] + rest) + more;
    }
  }

  lemma EscapeNothing()
    ensures Escape([]) == []
  {}

  lemma EscapePieces(s: Text, i: nat, j: nat)
    requires i <= j <= |s|
    ensures Escape(s[..j]) == Escape(s[..i]) + Escape(s[i..j])
    ensures |Escape(s[..j])| <= |Escape(s)|
  {
    assert s[..j] == s[..i] + s[i..j] && s == s[..j] + s[j..];
    EscapeAppend(s[..i], s[i..j]);
    EscapeAppend(s[..j], s[j..]);
  }

  lemma Grouped(a: Text, b: Text, c: Text, d: Text)
    ensures ((a + b) + c) + d == a + (b + c + d)
  {}

  // pj_json_write: succeeds when there is room for the text and two bytes more, one of them the final
  // zero. The tree has at most 33 levels of members, so that no indent exceeds the indent buffer.
  method WriteDocument(t: Elem, buffer: array<byte>, size: nat) returns (ok: bool, len: nat)
    requires NoNumbers(t.value) && Depth(t.value) <= 33 && size <= buffer.Length
    modifies buffer
    ensures ok <==> |WriteElem(t, 0, false)| + 1 < size
    ensures ok ==> len == |WriteElem(t, 0, false)| && buffer[..len] == WriteElem(t, 0, false) && buffer[len] == 0
  {
    hide WriteElem;
    DepthFits(t.value, 0);
    var w := new Writer(buffer, size);
    ok := w.PutElem(t, false);
    len := w.pos;
    if ok {
      ghost var text := buffer[..len];
      buffer[len] := 0;
      assert buffer[..len] == text;
    }
  }
}
