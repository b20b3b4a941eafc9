/** Command lines as they are written: words, clusters of short options, long options, and how a line ends.
    What a scan reports is stated on these, through the places of characters in optstring and the names of
    the long options. */
module GetoptLines {
  import opened Options
  import opened Getopt

  // ---------------------------------------------------------------- what optstring and longopts say

  // ch first stands at place k, and that many colons follow it; two count for any more.
  predicate TakesAt(opts: string, ch: char, k: nat, colons: nat) {
    && k < |opts| && opts[k] == ch != ':' && (forall j :: 0 <= j < k ==> opts[j] != ch)
    && (colons == 0 <==> !(k + 1 < |opts| && opts[k + 1] == ':'))
    && (colons == 2 <==> k + 2 < |opts| && opts[k + 1] == ':' && opts[k + 2] == ':')
    && colons <= 2
  }

  ghost predicate Takes(opts: string, ch: char, colons: nat) { exists k :: TakesAt(opts, ch, k, colons) }

  predicate IsStranger(opts: string, ch: char) { ch == ':' || ch !in opts }

  // The name is that of option i and of none before it; or it is the name of no option and abbreviates only
  // that of option i.
  predicate Means(opts: seq<LongOpt>, name: string, i: nat) {
    i < |opts| &&
    ((opts[i].name == name && forall j :: 0 <= j < i ==> opts[j].name != name) ||
     (&& name <= opts[i].name && (forall j :: 0 <= j < |opts| ==> opts[j].name != name)
      && forall j :: 0 <= j < |opts| && j != i ==> !(name <= opts[j].name)))
  }

  // The name is that of no option and abbreviates none or several.
  predicate IsUnclear(opts: seq<LongOpt>, name: string) {
    && (forall j :: 0 <= j < |opts| ==> opts[j].name != name)
    && ((forall j :: 0 <= j < |opts| ==> !(name <= opts[j].name)) ||
        exists j, k :: 0 <= j < k < |opts| && name <= opts[j].name && name <= opts[k].name)
  }

  // ---------------------------------------------------------------- the parts of a line

  datatype Tail = Nothing | Attached(ch: char, arg: string) | Separate(ch: char, arg: string) | Without(ch: char)

  datatype LongArg = NoValue | Equals(arg: string) | Next(arg: string)

  datatype Item =
    | Word(text: string)
    | Cluster(flags: string, tail: Tail)
    | Long(name: string, arg: LongArg, i: nat)
    | Unclear(name: string, rest: string)
    | Refused(name: string, value: string, i: nat)   // a value for an option that takes none

  datatype End = Done | Dashes(rest: seq<string>) | MissingShort(flags: string, ch: char) | MissingLong(name: string, i: nat)

  function TailText(t: Tail): string {
    match t
    case Nothing => ""
    case Attached(ch, arg) => [ch] + arg
    case Separate(ch, _) => [ch]
    case Without(ch) => [ch]
  }

  function Render(item: Item): (r: seq<string>)
    ensures 1 <= |r| <= 2
  {
    match item
    case Word(text) => [text]
    case Cluster(flags, tail) => ["-" + (flags + TailText(tail))] + if tail.Separate? then [tail.arg] else []
    case Long(name, arg, _) => ["--" + (if arg.Equals? then name + ("=" + arg.arg) else name)] + if arg.Next? then [arg.arg] else []
    case Unclear(name, rest) => ["--" + (name + rest)]
    case Refused(name, value, _) => ["--" + (name + ("=" + value))]
  }

  function RenderEnd(end: End): seq<string> {
    match end
    case Done => []
    case Dashes(rest) => ["--"] + rest
    case MissingShort(flags, ch) => ["-" + (flags + [ch])]
    case MissingLong(name, _) => ["--" + name]
  }

  function Line(items: seq<Item>, end: End): seq<string> {
    if items == [] then RenderEnd(end) else Render(items[0]) + Line(items[1..], end)
  }

  // ---------------------------------------------------------------- which are well written

  // An element that begins an option, short or long.
  predicate IsShortElement(c: Config, e: string) { |e| >= 2 && e[0] == '-' && e != "--" && (c.longopts.Some? ==> e[1] != '-') }

  ghost predicate FlagsOk(opts: string, flags: string) {
    forall j :: 0 <= j < |flags| ==> IsStranger(opts, flags[j]) || Takes(opts, flags[j], 0)
  }

  ghost predicate TailOk(opts: string, t: Tail) {
    match t
    case Nothing => true
    case Attached(ch, arg) => arg != "" && (Takes(opts, ch, 1) || Takes(opts, ch, 2))
    case Separate(ch, _) => Takes(opts, ch, 1)
    case Without(ch) => Takes(opts, ch, 2)
  }

  ghost predicate ItemOk(c: Config, item: Item) {
    match item
    case Word(text) => |text| < 2 || text[0] != '-'
    case Cluster(flags, tail) => IsShortElement(c, "-" + (flags + TailText(tail))) && FlagsOk(c.optstring, flags) && TailOk(c.optstring, tail)
    case Long(name, arg, i) =>
      && c.longopts.Some? && '=' !in name && Means(c.longopts.value, name, i) && (name != "" || arg.Equals?)
      && (arg.NoValue? ==> c.longopts.value[i].hasArg != 1) && (arg.Equals? ==> c.longopts.value[i].hasArg != 0)
      && (arg.Next? ==> c.longopts.value[i].hasArg == 1)
    case Unclear(name, rest) =>
      c.longopts.Some? && '=' !in name && (rest == "" || rest[0] == '=') && name + rest != "" && IsUnclear(c.longopts.value, name)
    case Refused(name, _, i) => c.longopts.Some? && '=' !in name && Means(c.longopts.value, name, i) && c.longopts.value[i].hasArg == 0
  }

  ghost predicate EndOk(c: Config, end: End) {
    match end
    case Done => true
    case Dashes(_) => true
    case MissingShort(flags, ch) => IsShortElement(c, "-" + (flags + [ch])) && FlagsOk(c.optstring, flags) && Takes(c.optstring, ch, 1)
    case MissingLong(name, i) =>
      c.longopts.Some? && '=' !in name && name != "" && Means(c.longopts.value, name, i) && c.longopts.value[i].hasArg == 1
  }

  ghost predicate LineOk(c: Config, items: seq<Item>, end: End) {
    (forall j :: 0 <= j < |items| ==> ItemOk(c, items[j])) && EndOk(c, end)
  }

  // ---------------------------------------------------------------- what they report

  function FlagReport(opts: string, ch: char): Event {
    if IsStranger(opts, ch) then Event('?' as int, None, Some(ch as int), None, None) else Event(ch as int, None, None, None, None)
  }

  function FlagReports(opts: string, flags: string): seq<Event> { seq(|flags|, j requires 0 <= j < |flags| => FlagReport(opts, flags[j])) }

  function TailReports(t: Tail): seq<Event> {
    match t
    case Nothing => []
    case Attached(ch, arg) => [Event(ch as int, Some(arg), None, None, None)]
    case Separate(ch, arg) => [Event(ch as int, Some(arg), None, None, None)]
    case Without(ch) => [Event(ch as int, None, None, None, None)]
  }

  // A long option reports its value, or stores it and reports 0.
  function LongReport(o: LongOpt, i: nat, arg: Option<string>): Event {
    match o.flag
    case None => Event(o.val, arg, None, Some(i), None)
    case Some(place) => Event(0, arg, None, Some(i), Some((place, o.val)))
  }

  ghost function Reports(c: Config, item: Item): seq<Event>
    requires ItemOk(c, item)
  {
    match item
    case Word(_) => []
    case Cluster(flags, tail) => FlagReports(c.optstring, flags) + TailReports(tail)
    case Long(_, arg, i) => [LongReport(c.longopts.value[i], i, if arg.NoValue? then None else Some(arg.arg))]
    case Unclear(_, _) => [Event('?' as int, None, Some(0), None, None)]
    case Refused(_, _, i) => [Event('?' as int, None, Some(c.longopts.value[i].val), None, None)]
  }

  // A missing argument is told by a colon if optstring begins with one.
  function MissingCode(c: Config): int { if |c.optstring| > 0 && c.optstring[0] == ':' then ':' as int else '?' as int }

  ghost function EndReports(c: Config, end: End): seq<Event>
    requires EndOk(c, end)
  {
    match end
    case Done => []
    case Dashes(_) => []
    case MissingShort(flags, ch) => FlagReports(c.optstring, flags) + [Event(MissingCode(c), None, Some(ch as int), None, None)]
    case MissingLong(_, i) => [Event(MissingCode(c), None, Some(c.longopts.value[i].val), None, None)]
  }

  function Same(n: nat, b: bool): seq<bool> { seq(n, _ => b) }

  function ItemMarks(item: Item): seq<bool> { Same(|Render(item)|, !item.Word?) }

  function EndMarks(end: End): seq<bool> {
    if end.Dashes? then [true] + Same(|end.rest|, false) else Same(|RenderEnd(end)|, true)
  }

  ghost function LineReports(c: Config, items: seq<Item>, end: End): seq<Event>
    requires LineOk(c, items, end)
  {
    if items == [] then EndReports(c, end) else Reports(c, items[0]) + LineReports(c, items[1..], end)
  }

  function LineMarks(items: seq<Item>, end: End): seq<bool> {
    if items == [] then EndMarks(end) else ItemMarks(items[0]) + LineMarks(items[1..], end)
  }

  // ---------------------------------------------------------------- short options

  lemma KindIs(opts: string, ch: char, colons: nat)
    requires Takes(opts, ch, colons)
    ensures ShortKind(opts, ch) == if colons == 0 then NoArg else if colons == 1 then RequiredArg else OptionalArg
    ensures !IsStranger(opts, ch)
  {
    var k :| TakesAt(opts, ch, k, colons);
    assert IndexOf(opts, ch, 0) == k;
  }

  lemma StrangerIs(opts: string, ch: char)
    requires IsStranger(opts, ch)
    ensures ShortKind(opts, ch) == Unknown
  {
    assert forall j :: 0 <= j < |opts| ==> opts[j] in opts;
  }

  // From the state with text, the scan reports events and goes on with text' at rest, having marked marks.
  ghost predicate Goes(c: Config, text: string, args: seq<string>, events: seq<Event>, marks: seq<bool>, text': string, rest: seq<string>) {
    Events(c, text, args) == events + Events(c, text', rest) && Marks(c, text, args) == marks + Marks(c, text', rest)
  }

  lemma GoesOn(c: Config, t1: string, a1: seq<string>, e1: seq<Event>, m1: seq<bool>, t2: string, a2: seq<string>,
               e2: seq<Event>, m2: seq<bool>, t3: string, a3: seq<string>)
    requires Goes(c, t1, a1, e1, m1, t2, a2) && Goes(c, t2, a2, e2, m2, t3, a3)
    ensures Goes(c, t1, a1, e1 + e2, m1 + m2, t3, a3)
  {
    hide Events, Marks;
  }

  // One step of the scan inside an element.
  lemma DecodeGoes(c: Config, text: string, args: seq<string>)
    requires text != "" && args != []
    ensures var d := Decode(c, text, args); Goes(c, text, args, [d.event], Same(d.n, true), d.text, args[d.n..])
  {
    hide Decode;
  }

  lemma FlagGoes(c: Config, ch: char, more: string, args: seq<string>)
    requires args != [] && !IsLong(c, args[0]) && (IsStranger(c.optstring, ch) || Takes(c.optstring, ch, 0))
    ensures Goes(c, [ch] + more, args, [FlagReport(c.optstring, ch)], if more == "" then [true] else [], more, if more == "" then args[1..] else args)
  {
    var text := [ch] + more;
    assert text[0] == ch && text[1..] == more;
    DecodeGoes(c, text, args);
    if IsStranger(c.optstring, ch) { StrangerIs(c.optstring, ch); } else { KindIs(c.optstring, ch, 0); }
    hide Events, Marks, ShortKind;
    assert args[0..] == args && Same(0, true) == [] && Same(1, true) == [true];
  }

  // The flags at the beginning of an element, with more to follow.
  lemma {:induction false} FlagsGo(c: Config, flags: string, more: string, args: seq<string>)
    requires args != [] && !IsLong(c, args[0]) && FlagsOk(c.optstring, flags) && more != ""
    ensures Goes(c, flags + more, args, FlagReports(c.optstring, flags), [], more, args)
    decreases |flags|
  {
    hide Events, Marks;
    if flags == "" {
      assert flags + more == more;
    } else {
      var f := flags[1..];
      assert flags + more == [flags[0]] + (f + more);
      FlagGoes(c, flags[0], f + more, args);
      FlagsGo(c, f, more, args);
      GoesOn(c, flags + more, args, [FlagReport(c.optstring, flags[0])], [], f + more, args, FlagReports(c.optstring, f), [], more, args);
      assert FlagReports(c.optstring, flags) == [FlagReport(c.optstring, flags[0])] + FlagReports(c.optstring, f);
    }
  }

  lemma AllFlagsGo(c: Config, flags: string, args: seq<string>)
    requires args != [] && !IsLong(c, args[0]) && FlagsOk(c.optstring, flags) && flags != ""
    ensures Goes(c, flags, args, FlagReports(c.optstring, flags), [true], "", args[1..])
  {
    hide Events, Marks;
    var n := |flags| - 1;
    var f, last := flags[..n], flags[n];
    assert flags == f + [last];
    FlagsGo(c, f, [last], args);
    FlagGoes(c, last, "", args);
    assert [last] + "" == [last];
    GoesOn(c, flags, args, FlagReports(c.optstring, f), [], [last], args, [FlagReport(c.optstring, last)], [true], "", args[1..]);
    assert FlagReports(c.optstring, flags) == FlagReports(c.optstring, f) + [FlagReport(c.optstring, last)];
  }

  lemma TailGoes(c: Config, t: Tail, args: seq<string>)
    requires args != [] && !IsLong(c, args[0]) && TailOk(c.optstring, t) && !t.Nothing? && (t.Separate? ==> |args| >= 2 && args[1] == t.arg)
    ensures var n := if t.Separate? then 2 else 1; Goes(c, TailText(t), args, TailReports(t), Same(n, true), "", args[n..])
  {
    var text := TailText(t);
    assert text[0] == t.ch && text[1..] == if t.Attached? then t.arg else "";
    DecodeGoes(c, text, args);
    match t
    case Attached(ch, _) => if Takes(c.optstring, ch, 1) { KindIs(c.optstring, ch, 1); } else { KindIs(c.optstring, ch, 2); }
    case Separate(ch, _) => KindIs(c.optstring, ch, 1);
    case Without(ch) => KindIs(c.optstring, ch, 2);
    hide Events, Marks, ShortKind;
  }

  // Opening an element changes nothing in what is reported.
  lemma Opens(c: Config, args: seq<string>)
    requires args != [] && !NonOption(args[0]) && args[0] != "--"
    ensures Goes(c, "", args, [], [], Open(c, args[0]), args)
  {}

  lemma ClusterGoes(c: Config, flags: string, tail: Tail, rest: seq<string>)
    requires ItemOk(c, Cluster(flags, tail))
    ensures var r := Render(Cluster(flags, tail)); Goes(c, "", r + rest, FlagReports(c.optstring, flags) + TailReports(tail), Same(|r|, true), "", rest)
  {
    var r := Render(Cluster(flags, tail));
    var args, text := r + rest, flags + TailText(tail);
    assert args[0] == "-" + text && args[0][1..] == text;
    Opens(c, args);
    hide Events, Marks;
    if tail.Nothing? {
      assert text == flags;
      AllFlagsGo(c, flags, args);
      assert args[1..] == rest && Same(1, true) == [true];
      GoesOn(c, "", args, [], [], text, args, FlagReports(c.optstring, flags), [true], "", rest);
    } else {
      FlagsGo(c, flags, TailText(tail), args);
      TailGoes(c, tail, args);
      assert args[|r|..] == rest;
      GoesOn(c, "", args, [], [], text, args, FlagReports(c.optstring, flags), [], TailText(tail), args);
      GoesOn(c, "", args, FlagReports(c.optstring, flags), [], TailText(tail), args, TailReports(tail), Same(|r|, true), "", rest);
    }
    assert [] + FlagReports(c.optstring, flags) == FlagReports(c.optstring, flags);
  }

  // ---------------------------------------------------------------- long options

  lemma MatchIs(opts: seq<LongOpt>, name: string, i: nat)
    requires Means(opts, name, i)
    ensures LongMatch(opts, name) == Unique(i)
  {
    var e, p := FirstFit(opts, name, true, 0), FirstFit(opts, name, false, 0);
    if opts[i].name == name {
      assert e == i;
    } else {
      assert e == |opts| && p == i;
      assert FirstFit(opts, name, false, i + 1) == |opts|;
    }
  }

  lemma UnclearIs(opts: seq<LongOpt>, name: string)
    requires IsUnclear(opts, name)
    ensures LongMatch(opts, name) == NoMatch || LongMatch(opts, name) == Ambiguous
  {
    var e, p := FirstFit(opts, name, true, 0), FirstFit(opts, name, false, 0);
    assert e == |opts|;
    if p < |opts| {
      var j, k :| 0 <= j < k < |opts| && name <= opts[j].name && name <= opts[k].name;
      assert Fits(opts[k], name, false) && p <= j;
    }
  }

  // The name in the text of an element is what stands before the first '='.
  lemma NamePart(name: string, rest: string)
    requires '=' !in name && (rest == "" || rest[0] == '=')
    ensures var text := name + rest; IndexOf(text, '=', 0) == |name| && text[..|name|] == name
    ensures rest != "" ==> (name + rest)[|name| + 1..] == rest[1..]
  {
    var text := name + rest;
    assert forall j :: 0 <= j < |name| ==> text[j] == name[j];
    assert rest != "" ==> text[|name|] == rest[0];
  }

  // The text of a long element.
  lemma LongText(c: Config, text: string, args: seq<string>)
    requires c.longopts.Some? && text != "" && args != [] && args[0] == "--" + text
    ensures IsLong(c, args[0]) && !NonOption(args[0]) && args[0] != "--" && Open(c, args[0]) == text
  {
    assert args[0][0] == '-' && args[0][1] == '-' && args[0][2..] == text;
  }

  lemma LongElementGoes(c: Config, text: string, args: seq<string>, event: Event, n: nat)
    requires c.longopts.Some? && text != "" && args != [] && args[0] == "--" + text
    requires var d := DecodeLong(c, text, args); d.event == event && d.n == n && n <= |args|
    ensures Goes(c, "", args, [event], Same(n, true), "", args[n..])
  {
    hide DecodeLong, DecodeShort;
    LongText(c, text, args);
    Opens(c, args);
    DecodeGoes(c, text, args);
    hide Events, Marks, Open;
    GoesOn(c, "", args, [], [], text, args, [event], Same(n, true), "", args[n..]);
    assert [] + [event] == [event] && [] + Same(n, true) == Same(n, true);
  }

  lemma LongGoes(c: Config, name: string, arg: LongArg, i: nat, rest: seq<string>)
    requires ItemOk(c, Long(name, arg, i))
    ensures var r := Render(Long(name, arg, i));
      Goes(c, "", r + rest, Reports(c, Long(name, arg, i)), Same(|r|, true), "", rest)
  {
    var r := Render(Long(name, arg, i));
    var args, after := r + rest, if arg.Equals? then "=" + arg.arg else "";
    var text := name + after;
    assert arg.Equals? || text == name;
    assert args[0] == "--" + text && args[|r|..] == rest;
    NamePart(name, after);
    MatchIs(c.longopts.value, name, i);
    hide LongMatch, Events, Marks, Means;
    LongElementGoes(c, text, args, Reports(c, Long(name, arg, i))[0], |r|);
  }

  lemma BadLongGoes(c: Config, item: Item, rest: seq<string>)
    requires ItemOk(c, item) && (item.Unclear? || item.Refused?)
    ensures Goes(c, "", Render(item) + rest, Reports(c, item), [true], "", rest)
  {
    var args, after := Render(item) + rest, if item.Unclear? then item.rest else "=" + item.value;
    var text := item.name + after;
    assert args[0] == "--" + text && args[1..] == rest;
    NamePart(item.name, after);
    if item.Unclear? { UnclearIs(c.longopts.value, item.name); } else { MatchIs(c.longopts.value, item.name, item.i); }
    hide LongMatch, Events, Marks, Means, IsUnclear;
    LongElementGoes(c, text, args, Reports(c, item)[0], 1);
    assert Same(1, true) == [true];
  }

  // ---------------------------------------------------------------- whole lines

  lemma WordGoes(c: Config, text: string, rest: seq<string>)
    requires |text| < 2 || text[0] != '-'
    ensures Goes(c, "", [text] + rest, [], [false], "", rest)
  {
    var args := [text] + rest;
    assert args[0] == text && args[1..] == rest && NonOption(args[0]) && args[0] != "--";
  }

  lemma ItemGoes(c: Config, item: Item, rest: seq<string>)
    requires ItemOk(c, item)
    ensures Goes(c, "", Render(item) + rest, Reports(c, item), ItemMarks(item), "", rest)
  {
    hide Goes;
    match item
    case Word(text) =>
      WordGoes(c, text, rest);
      assert Same(1, false) == [false];
    case Cluster(flags, tail) => ClusterGoes(c, flags, tail, rest);
    case Long(name, arg, i) => LongGoes(c, name, arg, i, rest);
    case _ =>
      BadLongGoes(c, item, rest);
      assert Same(1, true) == [true];
  }

  lemma MissingGoes(c: Config, flags: string, ch: char)
    requires EndOk(c, MissingShort(flags, ch))
    ensures var args := RenderEnd(MissingShort(flags, ch)); Goes(c, "", args, EndReports(c, MissingShort(flags, ch)), [true], "", [])
  {
    var args := RenderEnd(MissingShort(flags, ch));
    var text, event := flags + [ch], Event(MissingCode(c), None, Some(ch as int), None, None);
    assert args[0][1..] == text;
    hide Events, Marks;
    Opens(c, args);
    FlagsGo(c, flags, [ch], args);
    LastMissing(c, ch, args);
    var reports := FlagReports(c.optstring, flags);
    hide Goes, FlagReports, FlagsOk, Takes;
    GoesOn(c, "", args, [], [], text, args, reports, [], [ch], args);
    assert [] + reports == reports;
    GoesOn(c, "", args, reports, [], [ch], args, [event], [true], "", []);
  }

  lemma LastMissing(c: Config, ch: char, args: seq<string>)
    requires |args| == 1 && !IsLong(c, args[0]) && Takes(c.optstring, ch, 1)
    ensures Goes(c, [ch], args, [Event(MissingCode(c), None, Some(ch as int), None, None)], [true], "", [])
  {
    DecodeGoes(c, [ch], args);
    KindIs(c.optstring, ch, 1);
    hide Events, Marks, ShortKind;
    assert args[1..] == [] && Same(1, true) == [true];
  }

  lemma MissingLongGoes(c: Config, name: string, i: nat)
    requires EndOk(c, MissingLong(name, i))
    ensures var args := RenderEnd(MissingLong(name, i)); Goes(c, "", args, EndReports(c, MissingLong(name, i)), [true], "", [])
  {
    var args := RenderEnd(MissingLong(name, i));
    NamePart(name, "");
    assert name + "" == name;
    MatchIs(c.longopts.value, name, i);
    hide LongMatch, Events, Marks, Means;
    LongElementGoes(c, name, args, EndReports(c, MissingLong(name, i))[0], 1);
    assert args[1..] == [] && Same(1, true) == [true];
  }

  lemma EndGoes(c: Config, end: End)
    requires EndOk(c, end)
    ensures Events(c, "", RenderEnd(end)) == EndReports(c, end) && Marks(c, "", RenderEnd(end)) == EndMarks(end)
  {
    match end
    case Done =>
    case Dashes(rest) => assert RenderEnd(end)[0] == "--";
    case MissingShort(flags, ch) => MissingGoes(c, flags, ch);
    case MissingLong(name, i) => MissingLongGoes(c, name, i);
  }

  // What a scan reports, and which elements it takes for options, on every line that is so written.
  lemma {:induction false} LineIsScanned(c: Config, items: seq<Item>, end: End)
    requires LineOk(c, items, end)
    ensures Events(c, "", Line(items, end)) == LineReports(c, items, end)
    ensures Marks(c, "", Line(items, end)) == LineMarks(items, end)
    decreases |items|
  {
    hide Events, Marks, ItemOk, Reports, EndReports, EndMarks, ItemMarks;
    if items == [] {
      EndGoes(c, end);
    } else {
      ItemGoes(c, items[0], Line(items[1..], end));
      LineIsScanned(c, items[1..], end);
    }
  }

  // ---------------------------------------------------------------- every line is so written

  lemma KindBack(opts: string, ch: char)
    ensures match ShortKind(opts, ch)
      case Unknown => IsStranger(opts, ch)
      case NoArg => Takes(opts, ch, 0)
      case RequiredArg => Takes(opts, ch, 1)
      case OptionalArg => Takes(opts, ch, 2)
  {
    var k := IndexOf(opts, ch, 0);
    if ShortKind(opts, ch).Unknown? {
      assert ch != ':' ==> forall j :: 0 <= j < |opts| ==> opts[j] != ch;
    } else {
      var n := match ShortKind(opts, ch) case NoArg => 0 case RequiredArg => 1 case _ => 2;
      assert TakesAt(opts, ch, k, n);
    }
  }

  lemma MatchBack(opts: seq<LongOpt>, name: string)
    ensures match LongMatch(opts, name)
      case Unique(i) => Means(opts, name, i)
      case _ => IsUnclear(opts, name)
  {
    var e, p := FirstFit(opts, name, true, 0), FirstFit(opts, name, false, 0);
    assert forall j :: 0 <= j < e ==> !Fits(opts[j], name, true);
    assert forall j :: 0 <= j < p ==> !Fits(opts[j], name, false);
    if e == |opts| && p < |opts| {
      var q := FirstFit(opts, name, false, p + 1);
      assert forall j :: p < j < q ==> !Fits(opts[j], name, false);
      assert Fits(opts[p], name, false);
      if q < |opts| { assert Fits(opts[q], name, false); }
    }
  }

  // The text of a short element: flags, and possibly a character that takes an argument, and its text.
  lemma {:induction false} Split(opts: string, text: string) returns (flags: string, ch: Option<char>, arg: string)
    ensures FlagsOk(opts, flags) && text == flags + if ch.Some? then [ch.value] + arg else ""
    ensures ch.Some? ==> Takes(opts, ch.value, 1) || Takes(opts, ch.value, 2)
    decreases |text|
  {
    flags, ch, arg := "", None, "";
    if text != "" {
      KindBack(opts, text[0]);
      hide ShortKind, Takes;
      assert text == [text[0]] + text[1..];
      match ShortKind(opts, text[0])
      case RequiredArg => ch, arg := Some(text[0]), text[1..];
      case OptionalArg => ch, arg := Some(text[0]), text[1..];
      case _ =>
        var f;
        f, ch, arg := Split(opts, text[1..]);
        flags := [text[0]] + f;
    }
  }

  // The item or the end that args begins with.
  ghost predicate Begins(c: Config, args: seq<string>, item: Option<Item>, end: End) {
    if item.Some? then ItemOk(c, item.value) && |Render(item.value)| <= |args| && Render(item.value) == args[..|Render(item.value)|]
    else EndOk(c, end) && RenderEnd(end) == args
  }

  lemma ShortItem(c: Config, args: seq<string>) returns (item: Option<Item>, end: End)
    requires args != [] && IsShortElement(c, args[0])
    ensures Begins(c, args, item, end)
  {
    var text := args[0][1..];
    var flags, ch, arg := Split(c.optstring, text);
    assert args[0] == "-" + text && args[..1] == [args[0]];
    item, end := None, Done;
    if ch.None? {
      item := Some(Cluster(flags, Nothing));
    } else {
      assert text == flags + ([ch.value] + arg);
      if arg != "" {
        item := Some(Cluster(flags, Attached(ch.value, arg)));
      } else {
        assert [ch.value] + arg == [ch.value];
        if Takes(c.optstring, ch.value, 2) {
          item := Some(Cluster(flags, Without(ch.value)));
        } else if |args| > 1 {
          assert args[..2] == [args[0]] + [args[1]];
          item := Some(Cluster(flags, Separate(ch.value, args[1])));
        } else {
          assert args == [args[0]];
          end := MissingShort(flags, ch.value);
        }
      }
    }
  }

  lemma LongItem(c: Config, args: seq<string>) returns (item: Option<Item>, end: End)
    requires args != [] && IsLong(c, args[0]) && args[0][0] == '-' && args[0] != "--"
    ensures Begins(c, args, item, end)
  {
    var text, opts := args[0][2..], c.longopts.value;
    assert args[0] == "--" + text && text != "" && args[..1] == [args[0]];
    var name, after := CutName(text);
    MatchBack(opts, name);
    hide LongMatch, Means, IsUnclear;
    if LongMatch(opts, name).Unique? {
      item, end := KnownItem(c, args, name, after, LongMatch(opts, name).index);
    } else {
      item, end := Some(Unclear(name, after)), Done;
    }
  }

  lemma CutName(text: string) returns (name: string, after: string)
    ensures text == name + after && '=' !in name && (after == "" || after[0] == '=')
  {
    var k := IndexOf(text, '=', 0);
    name, after := text[..k], text[k..];
  }

  lemma KnownItem(c: Config, args: seq<string>, name: string, after: string, i: nat) returns (item: Option<Item>, end: End)
    requires c.longopts.Some? && args != [] && args[0] == "--" + (name + after) && name + after != ""
    requires '=' !in name && (after == "" || after[0] == '=') && Means(c.longopts.value, name, i)
    ensures Begins(c, args, item, end)
  {
    hide Means;
    MeansInRange(c.longopts.value, name, i);
    var o := c.longopts.value[i];
    assert args[..1] == [args[0]];
    item, end := None, Done;
    if after != "" {
      assert after == "=" + after[1..];
      item := Some(if o.hasArg != 0 then Long(name, Equals(after[1..]), i) else Refused(name, after[1..], i));
    } else {
      assert name + after == name;
      if o.hasArg != 1 {
        item := Some(Long(name, NoValue, i));
      } else if |args| > 1 {
        assert args[..2] == [args[0]] + [args[1]];
        item := Some(Long(name, Next(args[1]), i));
      } else {
        assert args == [args[0]];
        end := MissingLong(name, i);
      }
    }
  }

  lemma MeansInRange(opts: seq<LongOpt>, name: string, i: nat)
    requires Means(opts, name, i)
    ensures i < |opts|
  {}

  lemma FirstItem(c: Config, args: seq<string>) returns (item: Option<Item>, end: End)
    requires args != [] && args[0] != "--"
    ensures Begins(c, args, item, end)
  {
    if NonOption(args[0]) {
      assert args[..1] == [args[0]];
      item, end := Some(Word(args[0])), Done;
    } else if IsLong(c, args[0]) {
      item, end := LongItem(c, args);
    } else {
      item, end := ShortItem(c, args);
    }
  }

  // So the law speaks of every command line.
  lemma {:induction false} EveryLine(c: Config, args: seq<string>) returns (items: seq<Item>, end: End)
    ensures LineOk(c, items, end) && Line(items, end) == args
    decreases |args|
  {
    hide ItemOk, EndOk, Render;
    items, end := [], Done;
    if args == [] {
      NothingIsOk(c, []);
    } else if args[0] == "--" {
      end := Dashes(args[1..]);
      NothingIsOk(c, args[1..]);
      assert args == ["--"] + args[1..];
    } else {
      var item;
      item, end := FirstItem(c, args);
      if item.Some? {
        var n := |Render(item.value)|;
        assert args == args[..n] + args[n..];
        items, end := EveryLine(c, args[n..]);
        assert ([item.value] + items)[1..] == items;
        items := [item.value] + items;
      }
    }
  }

  lemma NothingIsOk(c: Config, rest: seq<string>)
    ensures EndOk(c, Done) && EndOk(c, Dashes(rest))
  {}
}
