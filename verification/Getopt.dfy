/** Command-line scanning with permutation (getopt.c in its PERMUTE ordering, without long_only and "W;"). */
module Getopt {

  import opened Options

  // hasArg is 0 (none), 1 (required) or 2 (optional); flag is the address of a variable to set.
  datatype LongOpt = LongOpt(name: string, hasArg: nat, flag: Option<nat>, val: int)

  // What one call reports: its result, pj_optarg, and pj_optopt, *longind and *flag where it sets them.
  datatype Event = Event(code: int, optarg: Option<string>, optopt: Option<int>, longind: Option<nat>, flag: Option<(nat, int)>)

  datatype Config = Config(optstring: string, longopts: Option<seq<LongOpt>>)

  // The first character of optstring selects no other order, and there is no option "W;".
  predicate Permutes(c: Config) {
    var w := IndexOf(c.optstring, 'W', 0);
    && (c.optstring != "" ==> c.optstring[0] != '-' && c.optstring[0] != '+')
    && !(w + 1 < |c.optstring| && c.optstring[w + 1] == ';')
  }

  // ---------------------------------------------------------------- decoding one option

  // The option, the text left in its element, and how many elements it ended.
  datatype Decoded = Decoded(event: Event, text: string, n: nat)

  function Failure(code: char, optopt: int): Decoded {
    Decoded(Event(code as int, None, Some(optopt), None, None), "", 1)
  }

  function MissingArg(c: Config): char {
    if c.optstring != "" && c.optstring[0] == ':' then ':' else '?'
  }

  function IndexOf(s: string, ch: char, i: nat): (k: nat)
    requires i <= |s|
    ensures i <= k <= |s| && (k < |s| ==> s[k] == ch) && forall j :: i <= j < k ==> s[j] != ch
    decreases |s| - i
  {
    if i == |s| || s[i] == ch then i else IndexOf(s, ch, i + 1)
  }

  datatype ArgKind = Unknown | NoArg | RequiredArg | OptionalArg

  function ShortKind(optstring: string, ch: char): ArgKind {
    var k := IndexOf(optstring, ch, 0);
    if k == |optstring| || ch == ':' then Unknown
    else if k + 1 < |optstring| && optstring[k + 1] == ':' then
      if k + 2 < |optstring| && optstring[k + 2] == ':' then OptionalArg else RequiredArg
    else NoArg
  }

  // args[0] is the element that text is the rest of.
  function DecodeShort(c: Config, text: string, args: seq<string>): (d: Decoded)
    requires text != "" && args != []
    ensures d.n <= |args| && d.n <= 2 && |d.text| < |text| && (d.n == 0 <==> d.text != "")
  {
    var ch, rest := text[0], text[1..];
    var plain := Event(ch as int, None, None, None, None);
    match ShortKind(c.optstring, ch)
    case Unknown => Decoded(Event('?' as int, None, Some(ch as int), None, None), rest, if rest == "" then 1 else 0)
    case NoArg => Decoded(plain, rest, if rest == "" then 1 else 0)
    case OptionalArg => Decoded(if rest != "" then plain.(optarg := Some(rest)) else plain, "", 1)
    case RequiredArg =>
      if rest != "" then Decoded(plain.(optarg := Some(rest)), "", 1)
      else if |args| == 1 then Failure(MissingArg(c), ch as int)
      else Decoded(plain.(optarg := Some(args[1])), "", 2)
  }

  datatype Match = Unique(index: nat) | Ambiguous | NoMatch

  predicate Fits(o: LongOpt, name: string, exact: bool) {
    if exact then o.name == name else name <= o.name
  }

  function FirstFit(opts: seq<LongOpt>, name: string, exact: bool, i: nat): (k: nat)
    requires i <= |opts|
    ensures i <= k <= |opts| && (k < |opts| ==> Fits(opts[k], name, exact)) && forall j :: i <= j < k ==> !Fits(opts[j], name, exact)
    decreases |opts| - i
  {
    if i == |opts| || Fits(opts[i], name, exact) then i else FirstFit(opts, name, exact, i + 1)
  }

  // The first exact match, else the only option that name abbreviates.
  function LongMatch(opts: seq<LongOpt>, name: string): (m: Match)
    ensures m.Unique? ==> m.index < |opts|
  {
    var e, p := FirstFit(opts, name, true, 0), FirstFit(opts, name, false, 0);
    if e < |opts| then Unique(e)
    else if p == |opts| then NoMatch
    else if FirstFit(opts, name, false, p + 1) < |opts| then Ambiguous
    else Unique(p)
  }

  function Found(o: LongOpt, index: nat, optarg: Option<string>, n: nat): Decoded {
    var code, flag := if o.flag.Some? then 0 else o.val, if o.flag.Some? then Some((o.flag.value, o.val)) else None;
    Decoded(Event(code, optarg, None, Some(index), flag), "", n)
  }

  function DecodeLong(c: Config, text: string, args: seq<string>): (d: Decoded)
    requires c.longopts.Some? && args != []
    ensures 1 <= d.n <= |args| && d.n <= 2 && d.text == ""
  {
    var k := IndexOf(text, '=', 0);
    match LongMatch(c.longopts.value, text[..k])
    case Ambiguous => Failure('?', 0)
    case NoMatch => Failure('?', 0)
    case Unique(i) =>
      var o := c.longopts.value[i];
      if k < |text| then
        if o.hasArg != 0 then Found(o, i, Some(text[k + 1..]), 1) else Failure('?', o.val)
      else if o.hasArg == 1 then
        if |args| > 1 then Found(o, i, Some(args[1]), 2) else Failure(MissingArg(c), o.val)
      else Found(o, i, None, 1)
  }

  predicate NonOption(arg: string) { |arg| < 2 || arg[0] != '-' }

  predicate IsLong(c: Config, arg: string) { c.longopts.Some? && |arg| >= 2 && arg[1] == '-' }

  function Decode(c: Config, text: string, args: seq<string>): (d: Decoded)
    requires text != "" && args != []
    ensures d.n <= |args| && d.n <= 2 && |d.text| < |text| && (d.n == 0 <==> d.text != "")
  {
    if IsLong(c, args[0]) then DecodeLong(c, text, args) else DecodeShort(c, text, args)
  }

  // The text of an option element after its initial punctuation.
  function Open(c: Config, arg: string): (t: string)
    requires !NonOption(arg) && arg != "--"
    ensures t != "" && |t| < |arg|
  {
    if IsLong(c, arg) then arg[2..] else arg[1..]
  }

  // ---------------------------------------------------------------- a whole scan, in order

  function Size(text: string, args: seq<string>): nat {
    if text == "" && args != [] then |args[0]| + 1 else |text|
  }

  // The reports, from a position where text is what is left of args[0].
  function Events(c: Config, text: string, args: seq<string>): seq<Event>
    decreases |args|, Size(text, args)
  {
    if args == [] then []
    else if text != "" then
      var d := Decode(c, text, args);
      [d.event] + Events(c, d.text, args[d.n..])
    else if args[0] == "--" then []
    else if NonOption(args[0]) then Events(c, "", args[1..])
    else Events(c, Open(c, args[0]), args)
  }

  // Which elements are options, option arguments or the "--" that ends them.
  function Marks(c: Config, text: string, args: seq<string>): (m: seq<bool>)
    ensures |m| == |args|
    decreases |args|, Size(text, args)
  {
    if args == [] then []
    else if text != "" then
      var d := Decode(c, text, args);
      seq(d.n, _ => true) + Marks(c, d.text, args[d.n..])
    else if args[0] == "--" then [true] + seq(|args| - 1, _ => false)
    else if NonOption(args[0]) then [false] + Marks(c, "", args[1..])
    else Marks(c, Open(c, args[0]), args)
  }

  // The elements with a given mark, in order.
  function Pick(args: seq<string>, marks: seq<bool>, mark: bool): seq<string>
    requires |args| == |marks|
  {
    if args == [] then []
    else Pick(args[..|args| - 1], marks[..|args| - 1], mark) + if marks[|args| - 1] == mark then [args[|args| - 1]] else []
  }

  lemma {:induction false} PickAppend(a: seq<string>, ma: seq<bool>, b: seq<string>, mb: seq<bool>, mark: bool)
    requires |a| == |ma| && |b| == |mb|
    ensures Pick(a + b, ma + mb, mark) == Pick(a, ma, mark) + Pick(b, mb, mark)
    decreases |b|
  {
    if b == [] {
      assert a + b == a && ma + mb == ma;
    } else {
      var k, n := |b| - 1, |a + b| - 1;
      PickAppend(a, ma, b[..k], mb[..k], mark);
      assert (a + b)[..n] == a + b[..k] && (ma + mb)[..n] == ma + mb[..k];
    }
  }

  lemma {:induction false} PickSame(a: seq<string>, m: seq<bool>, same: bool)
    requires |a| == |m| && forall i :: 0 <= i < |m| ==> m[i] == same
    ensures Pick(a, m, same) == a && Pick(a, m, !same) == []
    decreases |a|
  {
    if a != [] {
      PickSame(a[..|a| - 1], m[..|a| - 1], same);
    }
  }

  lemma {:induction false} PickCounts(a: seq<string>, m: seq<bool>)
    requires |a| == |m|
    ensures multiset(Pick(a, m, true)) + multiset(Pick(a, m, false)) == multiset(a)
    decreases |a|
  {
    if a != [] {
      var k := |a| - 1;
      PickCounts(a[..k], m[..k]);
      var t, f := Pick(a[..k], m[..k], true), Pick(a[..k], m[..k], false);
      PickLast(a, m, k);
      hide Pick;
      assert a == a[..k] + [a[k]];
      CountLast(a[..k], a[k]);
      CountLast(if m[k] then t else f, a[k]);
    }
  }

  lemma PickLast(a: seq<string>, m: seq<bool>, k: nat)
    requires |a| == |m| == k + 1
    ensures Pick(a, m, m[k]) == Pick(a[..k], m[..k], m[k]) + [a[k]] && Pick(a, m, !m[k]) == Pick(a[..k], m[..k], !m[k])
  {}

  lemma CountLast(a: seq<string>, x: string)
    ensures multiset(a + [x]) == multiset(a) + multiset{x}
  {}

  // A sequence that begins like o, holds the picks of o's scanned part in three segments and ends like
  // o is a permutation of o.
  lemma Arranged(a: seq<string>, o: seq<string>, m: seq<bool>, first: nat, last: nat, n: nat)
    requires |a| == |o| && 1 <= first <= last <= n <= |o| && |m| == n - 1 && a[0] == o[0] && a[n..] == o[n..]
    requires a[first..last] == Pick(o[1..n], m, false) && a[1..first] + a[last..n] == Pick(o[1..n], m, true)
    ensures multiset(a) == multiset(o)
  {
    PickCounts(o[1..n], m);
    hide Pick;
    Counts5(a, first, last, n);
    Counts5(o, n, n, n);
    assert o[n..n] == [];
    Sums(multiset([a[0]]), multiset(a[1..first]), multiset(a[first..last]), multiset(a[last..n]), multiset(a[n..]),
         multiset(Pick(o[1..n], m, true)), multiset(o[1..n]));
  }

  lemma Sums(z: multiset<string>, x: multiset<string>, f: multiset<string>, y: multiset<string>, r: multiset<string>,
             t: multiset<string>, o: multiset<string>)
    requires t == x + y && t + f == o
    ensures z + x + f + y + r == z + o + multiset{} + multiset{} + r
  {}

  lemma Counts5(a: seq<string>, first: nat, last: nat, n: nat)
    requires 1 <= first <= last <= n <= |a|
    ensures multiset(a) == multiset([a[0]]) + multiset(a[1..first]) + multiset(a[first..last]) + multiset(a[last..n]) + multiset(a[n..])
  {
    assert a == [a[0]] + a[1..first] + a[first..last] + a[last..n] + a[n..];
  }

  // ---------------------------------------------------------------- exchange

  lemma BlocksSwapped(b: seq<string>, s: seq<string>, i: nat, j: nat, len: nat)
    requires i + len <= j && j + len <= |b| == |s|
    requires forall x {:trigger s[x]} :: i <= x < i + len ==> s[x] == b[x + (j - i)]
    requires forall x {:trigger s[x]} :: j <= x < j + len ==> s[x] == b[x - (j - i)]
    requires forall x {:trigger s[x]} :: 0 <= x < |s| && !(i <= x < i + len) && !(j <= x < j + len) ==> s[x] == b[x]
    ensures s == b[..i] + b[j..j + len] + b[i + len..j] + b[i..i + len] + b[j + len..]
  {
    assert s[..i] == b[..i] && s[i..i + len] == b[j..j + len] && s[i + len..j] == b[i + len..j];
    assert s[j..j + len] == b[i..i + len] && s[j + len..] == b[j + len..];
  }

  // Swap a[i..i + len] and a[j..j + len].
  method SwapBlocks(a: array<string>, i: nat, j: nat, len: nat)
    requires i + len <= j && j + len <= a.Length
    modifies a
    ensures var b := old(a[..]); a[..] == b[..i] + b[j..j + len] + b[i + len..j] + b[i..i + len] + b[j + len..]
  {
    for k := 0 to len
      invariant forall x {:trigger a[x]} :: i <= x < i + k ==> a[x] == old(a[x + (j - i)])
      invariant forall x {:trigger a[x]} :: j <= x < j + k ==> a[x] == old(a[x - (j - i)])
      invariant forall x {:trigger a[x]} :: 0 <= x < a.Length && !(i <= x < i + k) && !(j <= x < j + k) ==> a[x] == old(a[x])
    {
      a[i + k], a[j + k] := a[j + k], a[i + k];
    }
    BlocksSwapped(old(a[..]), a[..], i, j, len);
  }

  // The elements after the two segments of b have been exchanged.
  function Rotated(b: seq<string>, bottom: nat, middle: nat, top: nat): (r: seq<string>)
    requires bottom <= middle <= top <= |b|
    ensures |r| == |b|
  {
    b[..bottom] + b[middle..top] + b[bottom..middle] + b[top..]
  }

  // The bottom segment is shorter: after a swap with the far end of the top one it is in its place.
  lemma RotateShortBottom(b: seq<string>, s: seq<string>, bottom: nat, middle: nat, top: nat)
    requires bottom <= middle <= top <= |b| && middle - bottom < top - middle
    requires var len := middle - bottom; s == b[..bottom] + b[top - len..top] + b[middle..top - len] + b[bottom..middle] + b[top..]
    ensures |s| == |b| && Rotated(s, bottom, middle, top - (middle - bottom)) == Rotated(b, bottom, middle, top)
  {
    var len := middle - bottom;
    assert s[..bottom] == b[..bottom] && s[bottom..middle] == b[top - len..top] && s[middle..top - len] == b[middle..top - len];
    assert s[top - len..] == b[bottom..middle] + b[top..];
    assert b[middle..top] == b[middle..top - len] + b[top - len..top];
  }

  lemma RotateShortTop(b: seq<string>, s: seq<string>, bottom: nat, middle: nat, top: nat)
    requires bottom <= middle <= top <= |b| && top - middle <= middle - bottom
    requires var len := top - middle; s == b[..bottom] + b[middle..top] + b[bottom + len..middle] + b[bottom..bottom + len] + b[top..]
    ensures |s| == |b| && Rotated(s, bottom + (top - middle), middle, top) == Rotated(b, bottom, middle, top)
  {
    var len := top - middle;
    assert s[..bottom + len] == b[..bottom] + b[middle..top] && s[bottom + len..middle] == b[bottom + len..middle];
    assert s[middle..top] == b[bottom..bottom + len] && s[top..] == b[top..];
    assert b[bottom..middle] == b[bottom..bottom + len] + b[bottom + len..middle];
  }

  lemma RotatedNothing(b: seq<string>, bottom: nat, middle: nat, top: nat)
    requires bottom <= middle <= top <= |b| && (bottom == middle || middle == top)
    ensures Rotated(b, bottom, middle, top) == b
  {
    assert b == b[..bottom] + b[bottom..middle] + b[middle..top] + b[top..];
  }

  method SwapBottom(a: array<string>, bottom: nat, middle: nat, top: nat)
    requires bottom <= middle <= top <= a.Length && middle - bottom < top - middle
    modifies a
    ensures Rotated(a[..], bottom, middle, top - (middle - bottom)) == Rotated(old(a[..]), bottom, middle, top)
  {
    hide Rotated;
    var len := middle - bottom;
    SwapBlocks(a, bottom, top - len, len);
    RotateShortBottom(old(a[..]), a[..], bottom, middle, top);
  }

  method SwapTop(a: array<string>, bottom: nat, middle: nat, top: nat)
    requires bottom <= middle <= top <= a.Length && top - middle <= middle - bottom
    modifies a
    ensures Rotated(a[..], bottom + (top - middle), middle, top) == Rotated(old(a[..]), bottom, middle, top)
  {
    hide Rotated;
    SwapBlocks(a, bottom, middle, top - middle);
    RotateShortTop(old(a[..]), a[..], bottom, middle, top);
  }

  // The loop of exchange: the shorter segment is put in its place until one is empty.
  method RotateSegments(a: array<string>, first: nat, last: nat, end: nat)
    requires first <= last <= end <= a.Length
    modifies a
    ensures a[..] == Rotated(old(a[..]), first, last, end)
  {
    hide Rotated;
    var bottom, middle, top := first, last, end;
    while top > middle && middle > bottom
      invariant first <= bottom <= middle == last <= top <= end
      invariant Rotated(a[..], bottom, middle, top) == Rotated(old(a[..]), first, last, end)
      decreases top - bottom
    {
      if top - middle > middle - bottom {
        SwapBottom(a, bottom, middle, top);
        top := top - (middle - bottom);
      } else {
        SwapTop(a, bottom, middle, top);
        bottom := bottom + (top - middle);
      }
    }
    RotatedNothing(a[..], bottom, middle, top);
  }

  // ---------------------------------------------------------------- the scanner

  method MyIndex(s: string, ch: char) returns (k: nat)
    ensures k == IndexOf(s, ch, 0)
  {
    k := 0;
    while k < |s| && s[k] != ch
      invariant k <= |s| && IndexOf(s, ch, k) == IndexOf(s, ch, 0)
    {
      k := k + 1;
    }
  }

  // All long options are tried for an exact or an abbreviated match.
  method FindLong(opts: seq<LongOpt>, name: string) returns (m: Match)
    ensures m == LongMatch(opts, name)
  {
    var found: Option<nat> := None;
    var ambig := false;
    for i := 0 to |opts|
      invariant FirstFit(opts, name, true, i) == FirstFit(opts, name, true, 0)
      invariant found.None? ==> !ambig && FirstFit(opts, name, false, i) == FirstFit(opts, name, false, 0)
      invariant found.Some? ==> found.value < i && found.value == FirstFit(opts, name, false, 0)
      invariant found.Some? && !ambig ==> FirstFit(opts, name, false, i) == FirstFit(opts, name, false, found.value + 1)
      invariant ambig ==> found.Some? && FirstFit(opts, name, false, found.value + 1) < i
    {
      if name <= opts[i].name {
        if |name| == |opts[i].name| {
          return Unique(i);
        } else if found.None? {
          found := Some(i);
        } else {
          ambig := true;
        }
      }
    }
    m := if ambig then Ambiguous else if found.Some? then Unique(found.value) else NoMatch;
  }

  class Scanner {
    const argv: array<string>
    const config: Config
    var optind: nat
    var nextchar: string         // rest of the current element; "" also stands for a null pointer
    var firstNonopt: nat
    var lastNonopt: nat
    ghost const orig: seq<string>

    ghost function Total(): seq<bool>
      requires orig != []
    {
      Marks(config, "", orig[1..])
    }

    ghost predicate Bounds()
      reads this, argv
    {
      1 <= firstNonopt <= lastNonopt <= optind <= argv.Length == |orig|
    }

    // Where the scan stands: what is left gives the marks that are left.
    ghost predicate Placed()
      reads this, argv
    {
      1 <= optind <= argv.Length == |orig| && (nextchar != "" ==> optind < argv.Length) &&
      Marks(config, nextchar, orig[optind..]) == Total()[optind - 1..]
    }

    // The scanned part holds earlier options, then skipped non-options, then options since; the rest is
    // untouched.
    ghost predicate Layout()
      requires Bounds()
      reads this, argv
    {
      && argv[0] == orig[0] && argv[optind..] == orig[optind..]
      && argv[firstNonopt..lastNonopt] == Scanned(optind, false)
      && argv[1..firstNonopt] + argv[lastNonopt..optind] == Scanned(optind, true)
    }

    ghost function Scanned(n: nat, mark: bool): seq<string>
      requires 1 <= n <= |orig|
    {
      Pick(orig[1..n], Total()[..n - 1], mark)
    }

    ghost predicate Valid()
      reads this, argv
    {
      Permutes(config) && Bounds() && Placed() && Layout()
    }

    // At any time argv is a permutation of what it was.
    lemma StillTheSame()
      requires Valid()
      ensures multiset(argv[..]) == multiset(orig)
    {
      hide Pick, Marks;
      Arranged(argv[..], orig, Total()[..optind - 1], firstNonopt, lastNonopt, optind);
    }

    lemma StillTheSameAtEnd()
      requires Permuted()
      ensures multiset(argv[..]) == multiset(orig)
    {
      hide Pick, Marks;
      assert argv[..][1..optind] + argv[..][argv.Length..argv.Length] == argv[1..optind];
      assert orig[1..argv.Length] == orig[1..];
      Arranged(argv[..], orig, Total(), optind, argv.Length, argv.Length);
    }

    constructor (argv: array<string>, config: Config)
      requires argv.Length > 0 && Permutes(config)
      ensures this.argv == argv && this.config == config && orig == argv[..] && optind == 1 && nextchar == "" && Valid()
    {
      this.argv, this.config, this.orig := argv, config, argv[..];
      optind, nextchar, firstNonopt, lastNonopt := 1, "", 1, 1;
    }

    // The skipped non-options end where the scan stands.
    ghost predicate Compact()
      reads this, argv
    {
      && 1 <= firstNonopt <= optind <= argv.Length == |orig|
      && argv[0] == orig[0] && argv[optind..] == orig[optind..]
      && argv[firstNonopt..optind] == Scanned(optind, false) && argv[1..firstNonopt] == Scanned(optind, true)
    }

    method Exchange()
      requires Bounds() && Layout()
      modifies argv, this`firstNonopt, this`lastNonopt
      ensures Compact() && lastNonopt == optind
    {
      hide Marks, Pick;
      ghost var b := argv[..];
      RotateSegments(argv, firstNonopt, lastNonopt, optind);
      ghost var r := argv[..];
      firstNonopt, lastNonopt := firstNonopt + (optind - lastNonopt), optind;
      ghost var first, last := old(firstNonopt), old(lastNonopt);
      assert r[..first] == b[..first] && r[first..firstNonopt] == b[last..optind];
      assert r[firstNonopt..optind] == b[first..last] && r[optind..] == b[optind..];
      assert r[1..firstNonopt] == r[1..first] + r[first..firstNonopt];
    }

    // Elements i to j have the same mark.
    lemma ScannedMore(i: nat, j: nat, mark: bool)
      requires 1 <= i <= j <= |orig| && forall k :: i - 1 <= k < j - 1 ==> Total()[k] == mark
      ensures Scanned(j, mark) == Scanned(i, mark) + orig[i..j] && Scanned(j, !mark) == Scanned(i, !mark)
    {
      hide Marks, Pick;
      var m := Total()[i - 1..j - 1];
      assert orig[1..j] == orig[1..i] + orig[i..j] && Total()[..j - 1] == Total()[..i - 1] + m;
      PickSame(orig[i..j], m, mark);
      PickAppend(orig[1..i], Total()[..i - 1], orig[i..j], m, mark);
      PickAppend(orig[1..i], Total()[..i - 1], orig[i..j], m, !mark);
    }

    // Options that followed skipped non-options are moved in front of them, then further non-options
    // are skipped.
    method Advance()
      requires Valid() && nextchar == ""
      modifies argv, this`firstNonopt, this`lastNonopt, this`optind
      ensures Placed() && Compact() && lastNonopt == optind >= old(optind)
      ensures optind == argv.Length || !NonOption(argv[optind])
      ensures Events(config, "", orig[old(optind)..]) == Events(config, "", orig[optind..])
    {
      hide Pick, Events, Marks, Scanned, NonOption;
      if firstNonopt != lastNonopt && lastNonopt != optind {
        Exchange();
      } else if lastNonopt != optind {
        assert argv[1..optind] == argv[1..firstNonopt] + argv[lastNonopt..optind];
        firstNonopt := optind;
      }
      assert Compact();
      while optind < argv.Length && NonOption(argv[optind])
        invariant Placed() && Compact() && old(optind) <= optind
        invariant Events(config, "", orig[old(optind)..]) == Events(config, "", orig[optind..])
      {
        SkipOne();
      }
      lastNonopt := optind;
    }

    method SkipOne()
      requires Placed() && Compact() && nextchar == "" && optind < argv.Length && NonOption(argv[optind])
      modifies this`optind
      ensures optind == old(optind) + 1 && Placed() && Compact()
      ensures Events(config, "", orig[old(optind)..]) == Events(config, "", orig[optind..])
    {
      hide Pick;
      ghost var rest := orig[optind..];
      assert argv[optind] == rest[0] && rest[1..] == orig[optind + 1..];
      assert Total()[optind - 1..][0] == Total()[optind - 1];
      ScannedMore(optind, optind + 1, false);
      assert Total()[optind - 1..][1..] == Total()[optind..];
      assert argv[firstNonopt..optind + 1] == argv[firstNonopt..optind] + [argv[optind]];
      optind := optind + 1;
    }

    // After "--" everything is a non-option.
    lemma DashMarks(i: nat)
      requires 1 <= i < |orig| && orig[i] == "--" && Marks(config, "", orig[i..]) == Total()[i - 1..]
      ensures Total()[i - 1] && forall k :: i <= k < |orig| - 1 ==> !Total()[k]
    {
      var m, t := Marks(config, "", orig[i..]), Total();
      assert m == [true] + seq(|orig| - i - 1, _ => false) by { assert orig[i..][0] == orig[i]; }
      assert t[i - 1] == m[0];
      forall k | i <= k < |orig| - 1 ensures !t[k] { assert t[k] == m[k - (i - 1)]; }
    }

    lemma ScannedDash(i: nat)
      requires 1 <= i < |orig| && orig[i] == "--" && Marks(config, "", orig[i..]) == Total()[i - 1..]
      ensures Scanned(i + 1, true) == Scanned(i, true) + [orig[i]] && Scanned(i + 1, false) == Scanned(i, false)
      ensures Scanned(|orig|, true) == Scanned(i + 1, true) && Scanned(|orig|, false) == Scanned(i + 1, false) + orig[i + 1..]
    {
      DashMarks(i);
      hide Marks, Pick, Scanned, Total;
      assert orig[i..i + 1] == [orig[i]] && orig[i + 1..|orig|] == orig[i + 1..];
      ScannedMore(i, i + 1, true);
      ScannedMore(i + 1, |orig|, false);
    }

    // "--" counts as an option; everything after it is skipped.
    method EndOfOptions()
      requires Placed() && Compact() && nextchar == "" && lastNonopt == optind < argv.Length && argv[optind] == "--"
      modifies argv, this`firstNonopt, this`lastNonopt, this`optind
      ensures Compact() && lastNonopt == optind == argv.Length
    {
      hide Pick, Marks, Scanned, Total;
      ghost var i := optind;
      assert argv[i] == orig[i] by { assert argv[i..][0] == orig[i..][0]; }
      assert argv[i..i + 1] == [orig[i]] && argv[i + 1..] == argv[i..][1..] == orig[i + 1..];
      ScannedDash(i);
      optind := optind + 1;
      assert Layout();
      if firstNonopt != lastNonopt && lastNonopt != optind {
        Exchange();
      } else if firstNonopt == lastNonopt {
        assert argv[1..optind] == argv[1..firstNonopt] + argv[lastNonopt..optind];
        firstNonopt := optind;
      }
      lastNonopt := argv.Length;
      assert argv[firstNonopt..] == argv[firstNonopt..optind] + argv[optind..];
      optind := argv.Length;
    }

    // Options first, in their order, then the other arguments, in theirs, from optind on.
    ghost predicate Permuted()
      reads this, argv
    {
      && 1 <= optind <= argv.Length == |orig| && argv[0] == orig[0]
      && argv[1..optind] == Pick(orig[1..], Total(), true) && argv[optind..] == Pick(orig[1..], Total(), false)
    }

    // The next option in the current element.
    method DecodeNext() returns (e: Event)
      requires optind < argv.Length && nextchar != ""
      modifies this`optind, this`nextchar
      ensures var d := old(Decode(config, nextchar, argv[optind..]));
        e == d.event && nextchar == d.text && optind == old(optind) + d.n <= argv.Length
    {
      if IsLong(config, argv[optind]) {
        e := Long();
      } else {
        e := Short();
      }
    }

    method Long() returns (e: Event)
      requires optind < argv.Length && config.longopts.Some?
      modifies this`optind, this`nextchar
      ensures var d := old(DecodeLong(config, nextchar, argv[optind..]));
        e == d.event && nextchar == d.text && optind == old(optind) + d.n
    {
      hide LongMatch;
      var text := nextchar;
      var nameEnd := MyIndex(text, '=');
      var m := FindLong(config.longopts.value, text[..nameEnd]);
      nextchar := "";
      optind := optind + 1;
      if !m.Unique? {
        return Failure('?', 0).event;
      }
      var o := config.longopts.value[m.index];
      var optarg := None;
      if nameEnd < |text| {
        if o.hasArg == 0 {
          return Failure('?', o.val).event;
        }
        optarg := Some(text[nameEnd + 1..]);
      } else if o.hasArg == 1 {
        if optind == argv.Length {
          return Failure(MissingArg(config), o.val).event;
        }
        optarg := Some(argv[optind]);
        optind := optind + 1;
      }
      e := Found(o, m.index, optarg, 1).event;
    }

    method Short() returns (e: Event)
      requires optind < argv.Length && nextchar != ""
      modifies this`optind, this`nextchar
      ensures var d := old(DecodeShort(config, nextchar, argv[optind..]));
        e == d.event && nextchar == d.text && optind == old(optind) + d.n
    {
      var ch, opts := nextchar[0], config.optstring;
      nextchar := nextchar[1..];
      var k := MyIndex(opts, ch);
      if nextchar == "" {
        optind := optind + 1;
      }
      if k == |opts| || ch == ':' {
        return Event('?' as int, None, Some(ch as int), None, None);
      }
      e := Event(ch as int, None, None, None, None);
      if k + 1 < |opts| && opts[k + 1] == ':' {
        if nextchar != "" {
          e := e.(optarg := Some(nextchar));
          optind := optind + 1;
        } else if !(k + 2 < |opts| && opts[k + 2] == ':') {
          if optind == argv.Length {
            e := Event(MissingArg(config) as int, None, Some(ch as int), None, None);
          } else {
            e := e.(optarg := Some(argv[optind]));
            optind := optind + 1;
          }
        }
        nextchar := "";
      }
    }

    // Decoding advances the scan by the elements it uses.
    lemma Decoded(i: nat, text: string)
      requires 1 <= i < |orig| && text != "" && Marks(config, text, orig[i..]) == Total()[i - 1..]
      ensures var d := Decode(config, text, orig[i..]); var j := i + d.n;
        && Events(config, text, orig[i..]) == [d.event] + Events(config, d.text, orig[j..])
        && Marks(config, d.text, orig[j..]) == Total()[j - 1..]
        && Scanned(j, true) == Scanned(i, true) + orig[i..j] && Scanned(j, false) == Scanned(i, false)
    {
      hide Decode, Pick;
      var d, t, rest := Decode(config, text, orig[i..]), Total(), orig[i..];
      var j := i + d.n;
      assert rest[d.n..] == orig[j..];
      var m := Marks(config, d.text, orig[j..]);
      assert t[i - 1..] == seq(d.n, _ => true) + m;
      assert t[j - 1..] == t[i - 1..][d.n..] == m;
      forall k | i - 1 <= k < j - 1 ensures t[k] { assert t[k] == t[i - 1..][k - (i - 1)]; }
      hide Marks;
      ScannedMore(i, j, true);
    }

    method TakeOption() returns (e: Event)
      requires Valid() && optind < argv.Length && nextchar != ""
      modifies this`optind, this`nextchar
      ensures Valid() && optind >= old(optind) && (optind == old(optind) ==> 0 < |nextchar| < old(|nextchar|))
      ensures old(Events(config, nextchar, orig[optind..])) == [e] + Events(config, nextchar, orig[optind..])
    {
      hide Decode, Pick, Marks, Events, Scanned;
      Decoded(optind, nextchar);
      ghost var i := optind;
      e := DecodeNext();
      assert argv[i..] == orig[i..];
      assert argv[optind..] == argv[i..][optind - i..] && orig[optind..] == orig[i..][optind - i..];
      assert argv[lastNonopt..optind] == argv[lastNonopt..i] + argv[i..optind];
      assert argv[i..optind] == argv[i..][..optind - i] == orig[i..optind];
    }

    lemma Opened(i: nat)
      requires 1 <= i < |orig| && !NonOption(orig[i]) && orig[i] != "--"
      ensures var text := Open(config, orig[i]);
        && Marks(config, text, orig[i..]) == Marks(config, "", orig[i..])
        && Events(config, text, orig[i..]) == Events(config, "", orig[i..])
    {
      assert orig[i..][0] == orig[i];
    }

    lemma Ended(i: nat)
      requires 1 <= i <= |orig| && (i == |orig| || orig[i] == "--")
      ensures Events(config, "", orig[i..]) == []
    {
      if i < |orig| { assert orig[i..][0] == orig[i]; }
    }

    // The scan is over: optind goes to the first of the other arguments.
    method Conclude()
      requires Compact() && lastNonopt == optind == argv.Length
      modifies this`optind
      ensures Permuted()
    {
      hide Pick, Marks;
      assert orig[1..optind] == orig[1..] && Total()[..optind - 1] == Total();
      if firstNonopt != lastNonopt {
        optind := firstNonopt;
      }
    }

    // Start on the option element at optind.
    method OpenElement()
      requires Permutes(config) && Placed() && Compact() && lastNonopt == optind < argv.Length && nextchar == ""
      requires !NonOption(argv[optind]) && argv[optind] != "--"
      modifies this`nextchar
      ensures Valid() && 0 < |nextchar| < |orig[optind]|
      ensures Events(config, "", orig[optind..]) == Events(config, nextchar, orig[optind..])
    {
      hide Pick, Marks, Events;
      assert argv[optind] == argv[optind..][0] == orig[optind..][0] == orig[optind];
      Opened(optind);
      nextchar := Open(config, argv[optind]);
      assert argv[1..firstNonopt] + argv[lastNonopt..optind] == argv[1..firstNonopt];
    }

    // Go to the next option element; done when there is none.
    method Begin() returns (done: bool)
      requires Valid() && nextchar == ""
      modifies this, argv
      ensures done ==> Permuted() && old(Events(config, nextchar, orig[optind..])) == []
      ensures !done ==> Valid() && nextchar != "" && optind >= old(optind)
      ensures !done ==> old(Events(config, nextchar, orig[optind..])) == Events(config, nextchar, orig[optind..])
      ensures !done ==> |nextchar| < |orig[optind]|
    {
      hide Pick, Marks, Events, NonOption, Scanned;
      Advance();
      if optind != argv.Length {
        assert argv[optind] == argv[optind..][0] == orig[optind..][0] == orig[optind];
        if argv[optind] == "--" {
          Ended(optind);
          EndOfOptions();
        }
      }
      if optind == argv.Length {
        Ended(optind);
        Conclude();
        return true;
      }
      OpenElement();
      done := false;
    }

    // One call of _getopt_internal; None is the result -1.
    method Next() returns (r: Option<Event>)
      requires Valid()
      modifies this, argv
      ensures r.None? ==> Permuted() && old(Events(config, nextchar, orig[optind..])) == []
      ensures r.Some? ==> Valid() && old(Events(config, nextchar, orig[optind..])) == [r.value] + Events(config, nextchar, orig[optind..])
      ensures r.Some? ==> optind >= old(optind) && (optind == old(optind) ==> 0 < |nextchar| < old(Size(nextchar, orig[optind..])))
      ensures multiset(argv[..]) == multiset(orig)
    {
      hide Pick, Marks, Events, Decode;
      if nextchar == "" {
        hide Valid;
        var done := Begin();
        if done {
          StillTheSameAtEnd();
          return None;
        }
      }
      var e := TakeOption();
      StillTheSame();
      r := Some(e);
    }
  }

  // Calling until -1: the reports are those of the scan in order, and argv has been permuted so that
  // the options, their arguments and "--" precede all other arguments, both in their order.
  method Run(argv: array<string>, config: Config) returns (reports: seq<Event>, optind: nat)
    requires argv.Length > 0 && Permutes(config)
    modifies argv
    ensures multiset(argv[..]) == old(multiset(argv[..]))
    ensures var args, marks := old(argv[1..]), Marks(config, "", old(argv[1..]));
      && reports == Events(config, "", args)
      && argv[0] == old(argv[0]) && 1 <= optind <= argv.Length
      && argv[1..optind] == Pick(args, marks, true) && argv[optind..] == Pick(args, marks, false)
  {
    hide Pick, Marks, Events, Decode;
    var s := new Scanner(argv, config);
    ghost var args := argv[1..];
    assert s.orig[1..] == args;
    reports := [];
    assert Events(config, "", args) == reports + Events(config, s.nextchar, s.orig[s.optind..]);
    while true
      invariant s.Valid() && s.argv == argv && s.config == config && s.orig == old(argv[..]) && fresh(s)
      invariant Events(config, "", args) == reports + Events(config, s.nextchar, s.orig[s.optind..])
      decreases argv.Length - s.optind, Size(s.nextchar, s.orig[s.optind..])
    {
      var r := s.Next();
      if r.None? {
        return reports, s.optind;
      }
      reports := reports + [r.value];
    }
  }
}
