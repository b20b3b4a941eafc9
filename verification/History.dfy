/** The command history of a telnet session (insert_history in cli_telnet.c). */
module History {

  type Command = string

  const MAX_HISTORY := 16
  const MAX_CMDBUF := 512

  predicate IsSpace(c: char) {
    c == ' ' || '\t' <= c <= '\r'
  }

  function TrimLeft(s: Command): (t: Command)
    ensures |t| <= |s|
  {
    if s != "" && IsSpace(s[0]) then TrimLeft(s[1..]) else s
  }

  function TrimRight(s: Command): (t: Command)
    ensures |t| <= |s|
  {
    if s != "" && IsSpace(s[|s| - 1]) then TrimRight(s[..|s| - 1]) else s
  }

  function Trim(s: Command): (t: Command)
    ensures |t| <= |s|
  {
    TrimRight(TrimLeft(s))
  }

  // One of the six white-space characters.
  predicate IsWhite(c: char) { c in {' ', '\t', '\n', '\U{0B}', '\U{0C}', '\r'} }

  // White space goes from both ends, and only from there.
  lemma TrimIs(s: Command) returns (before: Command, after: Command)
    ensures s == before + Trim(s) + after
    ensures forall c <- before + after :: IsWhite(c)
    ensures Trim(s) != "" ==> !IsWhite(Trim(s)[0]) && !IsWhite(Trim(s)[|Trim(s)| - 1])
  {
    before := LeftIs(s);
    after := RightIs(TrimLeft(s));
    var t := TrimLeft(s);
    assert Trim(s) != "" ==> Trim(s)[0] == t[0];
  }

  lemma {:induction false} LeftIs(s: Command) returns (before: Command)
    ensures s == before + TrimLeft(s) && (forall c <- before :: IsWhite(c)) && (TrimLeft(s) != "" ==> !IsWhite(TrimLeft(s)[0]))
  {
    before := "";
    if s != "" && IsSpace(s[0]) {
      var more := LeftIs(s[1..]);
      before := [s[0]] + more;
      assert s == [s[0]] + s[1..];
    }
  }

  lemma {:induction false} RightIs(s: Command) returns (after: Command)
    ensures s == TrimRight(s) + after && (forall c <- after :: IsWhite(c)) && (TrimRight(s) != "" ==> !IsWhite(TrimRight(s)[|TrimRight(s)| - 1]))
  {
    after := "";
    if s != "" && IsSpace(s[|s| - 1]) {
      var more := RightIs(s[..|s| - 1]);
      after := more + [s[|s| - 1]];
      assert s == s[..|s| - 1] + [s[|s| - 1]];
    }
  }

  function Find(h: seq<Command>, c: Command): (i: nat)
    ensures i <= |h| && (i < |h| ==> h[i] == c) && c !in h[..i]
  {
    if h == [] || h[0] == c then 0
    else
      var i := Find(h[1..], c);
      assert h[..i + 1] == [h[0]] + h[1..][..i];
      i + 1
  }

  function Erase(h: seq<Command>, i: nat): seq<Command>
    requires i < |h|
  {
    h[..i] + h[i + 1..]
  }

  // The list after one more command.
  function Insert(h: seq<Command>, line: Command): seq<Command> {
    var c := Trim(line);
    var i := Find(h, c);
    if c == "" then h
    else if i < |h| then [c] + Erase(h, i)
    else if |h| < MAX_HISTORY then [c] + h
    else [c] + h[..|h| - 1]
  }

  function Replay(lines: seq<Command>): seq<Command> {
    if lines == [] then [] else Insert(Replay(lines[..|lines| - 1]), lines[|lines| - 1])
  }

  class Session {
    var history: seq<Command>   // most recent first

    constructor ()
      ensures history == []
    {
      history := [];
    }

    // Command lines come from a buffer of MAX_CMDBUF bytes with a final zero, so none is cut short.
    method InsertHistory(line: Command)
      requires |line| < MAX_CMDBUF
      modifies this
      ensures history == old(Insert(history, line))
    {
      var c := TrimLine(line);
      if c == "" {
        return;
      }
      var i := 0;
      while i < |history| && history[i] != c
        invariant i <= |history| && c !in history[..i]
      {
        i := i + 1;
      }
      FindIs(history, c, i);
      if i == |history| {
        if |history| >= MAX_HISTORY {
          history := history[..|history| - 1];
        }
        c := c[..if |c| < MAX_CMDBUF then |c| else MAX_CMDBUF];
        assert c == Trim(line);
      } else {
        history := history[..i] + history[i + 1..];
      }
      history := [c] + history;
    }

    method TrimLine(line: Command) returns (c: Command)
      ensures c == Trim(line)
    {
      var from, to := 0, |line|;
      assert line[0..] == line;
      while from < |line| && IsSpace(line[from])
        invariant from <= |line| && TrimLeft(line) == TrimLeft(line[from..])
      {
        assert line[from..][1..] == line[from + 1..];
        from := from + 1;
      }
      assert TrimLeft(line) == line[from..] == line[from..to];
      while to > from && IsSpace(line[to - 1])
        invariant from <= to <= |line| && TrimRight(line[from..]) == TrimRight(line[from..to])
      {
        assert line[from..to][..to - from - 1] == line[from..to - 1];
        to := to - 1;
      }
      c := line[from..to];
    }
  }

  lemma {:induction false} FindIs(h: seq<Command>, c: Command, i: nat)
    requires i <= |h| && c !in h[..i] && (i < |h| ==> h[i] == c)
    ensures Find(h, c) == i
  {
    if i > 0 {
      assert h[0] == h[..i][0] && h[1..][..i - 1] == h[..i][1..];
      FindIs(h[1..], c, i - 1);
    }
  }

  // ---------------------------------------------------------------- what the history holds

  predicate Used(lines: seq<Command>, c: Command) { exists k :: 0 <= k < |lines| && Trim(lines[k]) == c }

  // When a command was last given.
  ghost function LastUse(lines: seq<Command>, c: Command): (k: nat)
    requires Used(lines, c)
    ensures k < |lines| && Trim(lines[k]) == c && forall j :: k < j < |lines| ==> Trim(lines[j]) != c
  {
    if Trim(lines[|lines| - 1]) == c then |lines| - 1 else LastUse(lines[..|lines| - 1], c)
  }

  // The history holds different commands, each given at some time and not blank, the most recently
  // given first; a command that is missing was last given before all those held, and then the list
  // is full.
  ghost predicate Holds(h: seq<Command>, lines: seq<Command>) {
    |h| <= 16 && Ordered(h, lines) && forall c :: c != "" && Used(lines, c) && c !in h ==> |h| == 16 && Older(c, h, lines)
  }

  ghost predicate Ordered(h: seq<Command>, lines: seq<Command>) {
    && (forall i :: 0 <= i < |h| ==> h[i] != "" && Used(lines, h[i]))
    && (forall i, j :: 0 <= i < j < |h| ==> LastUse(lines, h[i]) > LastUse(lines, h[j]))
  }

  ghost predicate Older(c: Command, h: seq<Command>, lines: seq<Command>)
    requires Used(lines, c)
  {
    forall i :: 0 <= i < |h| ==> Used(lines, h[i]) && LastUse(lines, h[i]) > LastUse(lines, c)
  }

  lemma UsedMore(lines: seq<Command>, line: Command, c: Command)
    ensures Used(lines + [line], c) <==> Used(lines, c) || Trim(line) == c
    ensures Used(lines + [line], c) ==>
      LastUse(lines + [line], c) == if Trim(line) == c then |lines| else LastUse(lines, c)
  {
    var more := lines + [line];
    if Used(lines, c) { assert more[LastUse(lines, c)] == lines[LastUse(lines, c)]; }
    assert more[..|lines|] == lines && more[|lines|] == line;
    if Used(more, c) {
      var k :| 0 <= k < |more| && Trim(more[k]) == c;
      assert k < |lines| ==> more[k] == lines[k];
    }
  }

  // After any lines, the history is what it should be.
  lemma {:induction false} ReplayHolds(lines: seq<Command>)
    ensures Holds(Replay(lines), lines)
  {
    if lines != [] {
      var init, line := lines[..|lines| - 1], lines[|lines| - 1];
      ReplayHolds(init);
      assert lines == init + [line];
      InsertHolds(Replay(init), init, line);
    }
  }

  // The place that a new command empties.
  function Dropped(h: seq<Command>, c: Command): nat {
    var i := Find(h, c);
    if i < |h| then i else if |h| < MAX_HISTORY then |h| else |h| - 1
  }

  function Others(h: seq<Command>, c: Command): seq<Command> {
    if Dropped(h, c) < |h| then Erase(h, Dropped(h, c)) else h
  }

  lemma OthersWithout(h: seq<Command>, lines: seq<Command>, c: Command)
    requires Ordered(h, lines)
    ensures Without(Others(h, c), h, Dropped(h, c), c)
  {
    hide Used, LastUse;
    var i, k, rest := Find(h, c), Dropped(h, c), Others(h, c);
    forall x | 0 <= x < |rest| ensures rest[x] == h[if x < k then x else x + 1] && rest[x] != c {
      var y := if x < k then x else x + 1;
      if i < |h| {
        assert if y < i then LastUse(lines, h[y]) > LastUse(lines, h[i]) else LastUse(lines, h[i]) > LastUse(lines, h[y]);
      } else {
        assert h[y] in h[..i];
      }
    }
  }

  lemma InsertHolds(h: seq<Command>, lines: seq<Command>, line: Command)
    requires Holds(h, lines)
    ensures Holds(Insert(h, line), lines + [line])
  {
    hide Trim, Find, Ordered, Used, Without;
    var c := Trim(line);
    if c == "" {
      SameHolds(h, lines, line);
    } else {
      OthersWithout(h, lines, c);
      FrontHolds(h, lines, line, Dropped(h, c), Others(h, c));
      assert Insert(h, line) == [c] + Others(h, c);
    }
  }

  lemma SameHolds(h: seq<Command>, lines: seq<Command>, line: Command)
    requires Holds(h, lines) && Trim(line) == ""
    ensures Holds(h, lines + [line])
  {
    hide Trim, Used, LastUse;
    forall c ensures c != "" ==> (Used(lines + [line], c) <==> Used(lines, c)) && (Used(lines, c) ==> LastUse(lines + [line], c) == LastUse(lines, c)) {
      UsedMore(lines, line, c);
    }
  }

  // rest is h without its element k; c is not in it.
  ghost predicate Without(rest: seq<Command>, h: seq<Command>, k: nat, c: Command) {
    && k <= |h| && |rest| == (if k < |h| then |h| - 1 else |h|)
    && forall x :: 0 <= x < |rest| ==> rest[x] == h[if x < k then x else x + 1] && rest[x] != c
  }

  // The new command comes first; what is dropped is its old place or, from a full list, the oldest.
  lemma FrontHolds(h: seq<Command>, lines: seq<Command>, line: Command, k: nat, rest: seq<Command>)
    requires Holds(h, lines) && Trim(line) != "" && Without(rest, h, k, Trim(line))
    requires if k == |h| then |h| < MAX_HISTORY else h[k] == Trim(line) || (k == |h| - 1 && |h| == MAX_HISTORY)
    ensures Holds([Trim(line)] + rest, lines + [line])
  {
    hide Trim, Used, LastUse, Older, Ordered;
    var c, h', more := Trim(line), [Trim(line)] + rest, lines + [line];
    FrontOrdered(h, lines, line, k, rest);
    forall d | d != "" && Used(more, d) && d !in h' ensures |h'| == MAX_HISTORY && Older(d, h', more) {
      assert d != c && d !in rest by { assert h'[0] == c; assert forall x <- rest :: x in h'; }
      UsedMore(lines, line, d);
      Missing(h, lines, k, rest, c, d);
      FrontOlder(rest, lines, line, d);
    }
  }

  lemma FrontOrdered(h: seq<Command>, lines: seq<Command>, line: Command, k: nat, rest: seq<Command>)
    requires Ordered(h, lines) && Trim(line) != "" && Without(rest, h, k, Trim(line))
    ensures Ordered([Trim(line)] + rest, lines + [line])
  {
    hide Trim, Used, LastUse;
    var h', more := [Trim(line)] + rest, lines + [line];
    UsedMore(lines, line, Trim(line));
    forall i | 0 <= i < |h'| ensures h'[i] != "" && Used(more, h'[i]) {
      if i > 0 { assert h'[i] == rest[i - 1]; UsedMore(lines, line, rest[i - 1]); }
    }
    forall i, j | 0 <= i < j < |h'| ensures LastUse(more, h'[i]) > LastUse(more, h'[j]) {
      assert h'[j] == rest[j - 1];
      UsedMore(lines, line, rest[j - 1]);
      if i > 0 { assert h'[i] == rest[i - 1]; UsedMore(lines, line, rest[i - 1]); }
    }
  }

  lemma FrontOlder(rest: seq<Command>, lines: seq<Command>, line: Command, d: Command)
    requires Used(lines, d) && Used(lines + [line], d) && Older(d, rest, lines) && d != Trim(line) && Trim(line) !in rest
    ensures Older(d, [Trim(line)] + rest, lines + [line])
  {
    hide Trim, Used, LastUse;
    var h', more := [Trim(line)] + rest, lines + [line];
    UsedMore(lines, line, d);
    UsedMore(lines, line, Trim(line));
    forall i | 0 <= i < |h'| ensures Used(more, h'[i]) && LastUse(more, h'[i]) > LastUse(more, d) {
      if i > 0 { assert h'[i] == rest[i - 1]; UsedMore(lines, line, rest[i - 1]); }
    }
  }

  lemma KeptElement(h: seq<Command>, k: nat, rest: seq<Command>, c: Command, y: nat)
    requires Without(rest, h, k, c) && y < |h| && y != k
    ensures h[y] in rest
  {
    assert rest[if y < k then y else y - 1] == h[y];
  }

  // A command that is not in the new list was dropped last or missing before.
  lemma Missing(h: seq<Command>, lines: seq<Command>, k: nat, rest: seq<Command>, c: Command, d: Command)
    requires Holds(h, lines) && Without(rest, h, k, c) && d !in rest && d != c && d != "" && Used(lines, d)
    requires if k == |h| then |h| < MAX_HISTORY else h[k] == c || (k == |h| - 1 && |h| == MAX_HISTORY)
    ensures |rest| == MAX_HISTORY - 1 && Older(d, rest, lines)
  {
    hide Used, LastUse;
    if d in h {
      var y :| 0 <= y < |h| && h[y] == d;
      if y != k { KeptElement(h, k, rest, c, y); }
    }
  }
}
