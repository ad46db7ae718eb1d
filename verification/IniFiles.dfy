/** The section files of util/bootmaker.c: the five-state scanner that cuts the text up in place, the printer, and
    lookups. */
module IniFiles {
  import opened Arithmetic

  datatype Pair = Pair(name: seq<byte>, value: seq<byte>)

  datatype Section = Section(name: seq<byte>, pairs: seq<Pair>)

  const NL: byte := 10
  const SPACE := 32
  const HASH := 35
  const EQUALS: byte := 61
  const OPEN: byte := 91
  const CLOSE: byte := 93

  datatype Mode = NewLine | SkipLine | Header | Lhs | Rhs

  /** Where the scanner is: what it has read of the current name and value, and the sections so far; stray once a pair
      has come before any section, where the source has no section to add it to. */
  datatype Scan = Scan(mode: Mode, lhs: seq<byte>, rhs: seq<byte>, sections: seq<Section>, stray: bool)

  const START := Scan(NewLine, [], [], [], false)

  /** A C string ends at its first zero byte. */
  function Cut(s: seq<byte>): (r: seq<byte>)
    ensures |r| <= |s| && 0 !in r && r == s[..|r|] && (|r| < |s| ==> s[|r|] == 0) && (0 !in s ==> r == s)
  { if s == [] || s[0] == 0 then [] else [s[0]] + Cut(s[1..]) }

  /** *data <= ' ', where char is signed */
  predicate Blank(c: byte) { c <= SPACE || c >= 128 }

  function AddPair(c: Scan, p: Pair): Scan {
    if c.sections == [] then c.(mode := NewLine, stray := true)
    else
      var last := |c.sections| - 1;
      c.(mode := NewLine, sections := c.sections[last := c.sections[last].(pairs := [p] + c.sections[last].pairs)])
  }

  /** What one character does. */
  function Step(c: Scan, ch: byte): Scan {
    match c.mode
    case SkipLine => if ch == NL then c.(mode := NewLine) else c
    case NewLine =>
      if ch == NL then c
      else if ch == OPEN then c.(mode := Header, lhs := [])
      else if ch == HASH || Blank(ch) then c.(mode := SkipLine)
      else c.(mode := Lhs, lhs := [ch])
    case Header =>
      if ch == CLOSE then c.(mode := SkipLine, sections := c.sections + [Section(Cut(c.lhs), [])])
      else c.(lhs := c.lhs + [ch])
    case Lhs =>
      if ch == NL then c.(mode := NewLine)
      else if ch == EQUALS then c.(mode := Rhs, rhs := [])
      else c.(lhs := c.lhs + [ch])
    case Rhs =>
      if ch == NL then AddPair(c, Pair(Cut(c.lhs), Cut(c.rhs)))
      else c.(rhs := c.rhs + [ch])
  }

  function Run(c: Scan, s: seq<byte>): Scan
    decreases |s|
  { if s == [] then c else Step(Run(c, s[..|s| - 1]), s[|s| - 1]) }

  lemma {:induction false} RunTwice(c: Scan, s: seq<byte>, t: seq<byte>)
    ensures Run(c, s + t) == Run(Run(c, s), t)
    decreases |t|
  {
    if t == [] {
      assert s + t == s;
    } else {
      RunTwice(c, s, t[..|t| - 1]);
      assert (s + t)[..|s + t| - 1] == s + t[..|t| - 1];
    }
  }

  // ----- the printer -----

  function Line(p: Pair): seq<byte> { p.name + [EQUALS] + p.value + [NL] }

  function Lines(pairs: seq<Pair>): seq<byte>
    decreases |pairs|
  { if pairs == [] then [] else Lines(pairs[..|pairs| - 1]) + Line(pairs[|pairs| - 1]) }

  function Heading(name: seq<byte>): seq<byte> { [NL, OPEN] + name + [CLOSE, NL] }

  function Text(sections: seq<Section>): seq<byte>
    decreases |sections|
  {
    if sections == [] then []
    else
      var s := sections[|sections| - 1];
      Text(sections[..|sections| - 1]) + Heading(s.name) + Lines(s.pairs)
  }

  lemma {:induction false} LinesBegin(pairs: seq<Pair>)
    requires pairs != []
    ensures Line(pairs[0]) <= Lines(pairs)
    decreases |pairs|
  {
    hide Line;
    var fewer := pairs[..|pairs| - 1];
    if fewer != [] {
      LinesBegin(fewer);
    } else {
      assert Lines(fewer) == [];
    }
  }

  lemma {:induction false} TextBegins(sections: seq<Section>)
    requires sections != []
    ensures Heading(sections[0].name) + Lines(sections[0].pairs) <= Text(sections)
    decreases |sections|
  {
    hide Lines, Heading;
    var fewer := sections[..|sections| - 1];
    if fewer != [] {
      TextBegins(fewer);
    } else {
      assert Text(fewer) == [];
    }
  }

  lemma Prefixes(a: seq<byte>, b: seq<byte>, c: seq<byte>, all: seq<byte>)
    requires a + b <= all && c <= b
    ensures a <= all && a + c <= all
  {
  }

  lemma FirstLines(sections: seq<Section>)
    requires sections != []
    ensures var s := sections[0];
      && [10, 91] + s.name + [93, 10] <= Text(sections)
      && (s.pairs != [] ==>
            [10, 91] + s.name + [93, 10] + (s.pairs[0].name + [61] + s.pairs[0].value + [10]) <= Text(sections))
  {
    hide Lines, Text;
    var s := sections[0];
    TextBegins(sections);
    Prefixes(Heading(s.name), Lines(s.pairs), [], Text(sections));
    if s.pairs != [] {
      LinesBegin(s.pairs);
      Prefixes(Heading(s.name), Lines(s.pairs), Line(s.pairs[0]), Text(sections));
    }
  }

  /** print_sections; out is what it prints: a newline and the name in brackets on a line, and a line with name, = and
      value for each pair. */
  method PrintSections(sections: seq<Section>) returns (out: seq<byte>)
    ensures out == Text(sections) && (sections == [] ==> out == [])
    ensures sections != [] ==>
      var s := sections[0];
      && [10, 91] + s.name + [93, 10] <= out
      && (s.pairs != [] ==>
            [10, 91] + s.name + [93, 10] + (s.pairs[0].name + [61] + s.pairs[0].value + [10]) <= out)
  {
    out := [];
    var i := 0;
    while i < |sections|
      invariant 0 <= i <= |sections| && out == Text(sections[..i])
    {
      var s := sections[i];
      out := out + [NL, OPEN] + s.name + [CLOSE, NL];
      ghost var before := out;
      var j := 0;
      while j < |s.pairs|
        invariant 0 <= j <= |s.pairs| && out == before + Lines(s.pairs[..j])
      {
        out := out + s.pairs[j].name + [EQUALS] + s.pairs[j].value + [NL];
        assert s.pairs[..j + 1][..j] == s.pairs[..j];
        assert out == before + (Lines(s.pairs[..j]) + Line(s.pairs[j]));
        j := j + 1;
      }
      assert s.pairs[..j] == s.pairs && sections[..i + 1][..i] == sections[..i];
      assert before == Text(sections[..i]) + Heading(s.name);
      i := i + 1;
    }
    assert sections[..i] == sections;
    if sections != [] { FirstLines(sections); }
  }

  // ----- the round trip -----

  predicate Free(s: seq<byte>, c: byte) { forall i {:trigger s[i]} :: 0 <= i < |s| ==> s[i] != c }

  /** A name begins with a character that starts a pair, and has neither = nor newline behind that. */
  predicate GoodName(n: seq<byte>) {
    |n| > 0 && n[0] != OPEN && n[0] != HASH && !Blank(n[0]) && Free(n[1..], EQUALS) && Free(n[1..], NL) && 0 !in n
  }

  predicate GoodPair(p: Pair) { GoodName(p.name) && Free(p.value, NL) && 0 !in p.value }

  predicate GoodSection(s: Section) {
    Free(s.name, CLOSE) && 0 !in s.name && forall i {:trigger s.pairs[i]} :: 0 <= i < |s.pairs| ==> GoodPair(s.pairs[i])
  }

  predicate Good(sections: seq<Section>)
  { forall i {:trigger sections[i]} :: 0 <= i < |sections| ==> GoodSection(sections[i]) }

  function Reversed(pairs: seq<Pair>): (r: seq<Pair>)
    ensures |r| == |pairs| && forall i {:trigger r[i]} :: 0 <= i < |r| ==> r[i] == pairs[|pairs| - 1 - i]
  { seq(|pairs|, i requires 0 <= i < |pairs| => pairs[|pairs| - 1 - i]) }

  /** Every section with its pairs in the opposite order. */
  function Mirrored(sections: seq<Section>): (r: seq<Section>)
    ensures |r| == |sections|
      && forall i {:trigger r[i]} :: 0 <= i < |r| ==> r[i] == Section(sections[i].name, Reversed(sections[i].pairs))
  { seq(|sections|, i requires 0 <= i < |sections| => Section(sections[i].name, Reversed(sections[i].pairs))) }

  lemma {:induction false} ReadName(c: Scan, s: seq<byte>)
    requires (c.mode == Lhs && Free(s, NL) && Free(s, EQUALS)) || (c.mode == Header && Free(s, CLOSE))
    ensures Run(c, s) == c.(lhs := c.lhs + s)
    decreases |s|
  {
    if s == [] {
      assert c.lhs + s == c.lhs;
    } else {
      ReadName(c, s[..|s| - 1]);
      assert c.lhs + s == c.lhs + s[..|s| - 1] + [s[|s| - 1]];
    }
  }

  lemma {:induction false} ReadValue(c: Scan, s: seq<byte>)
    requires c.mode == Rhs && Free(s, NL)
    ensures Run(c, s) == c.(rhs := c.rhs + s)
    decreases |s|
  {
    if s == [] {
      assert c.rhs + s == c.rhs;
    } else {
      ReadValue(c, s[..|s| - 1]);
      assert c.rhs + s == c.rhs + s[..|s| - 1] + [s[|s| - 1]];
    }
  }

  lemma OneStep(c: Scan, ch: byte)
    ensures Run(c, [ch]) == Step(c, ch)
  {
    assert [ch][..0] == [];
    assert Run(c, []) == c;
  }

  lemma ReadLhs(c: Scan, n: seq<byte>)
    requires c.mode == NewLine && GoodName(n)
    ensures Run(c, n) == c.(mode := Lhs, lhs := n)
  {
    hide Run, Cut;
    OneStep(c, n[0]);
    RunTwice(c, [n[0]], n[1..]);
    assert [n[0]] + n[1..] == n;
    ReadName(Step(c, n[0]), n[1..]);
  }

  lemma ReadRhs(c: Scan, v: seq<byte>)
    requires c.mode == Lhs && Free(v, NL)
    ensures Run(c, [EQUALS] + v) == c.(mode := Rhs, rhs := v)
  {
    hide Run, Cut;
    OneStep(c, EQUALS);
    RunTwice(c, [EQUALS], v);
    ReadValue(Step(c, EQUALS), v);
    assert [] + v == v;
  }

  lemma ReadLine(c: Scan, p: Pair)
    requires c.mode == NewLine && GoodPair(p)
    ensures Run(c, Line(p)) == AddPair(c.(mode := Rhs, lhs := p.name, rhs := p.value), p)
  {
    hide Run, AddPair, Free, Blank;
    var n, v := p.name, p.value;
    ReadLhs(c, n);
    var c1 := c.(mode := Lhs, lhs := n);
    ReadRhs(c1, v);
    var c2 := c1.(mode := Rhs, rhs := v);
    RunTwice(c, n, [EQUALS] + v);
    OneStep(c2, NL);
    RunTwice(c, n + ([EQUALS] + v), [NL]);
    assert n + ([EQUALS] + v) + [NL] == Line(p);
  }

  lemma ReversedMore(pairs: seq<Pair>)
    requires |pairs| > 0
    ensures Reversed(pairs) == [pairs[|pairs| - 1]] + Reversed(pairs[..|pairs| - 1])
  {
  }

  lemma {:induction false} ReadLines(c: Scan, pairs: seq<Pair>)
    requires c.mode == NewLine && |c.sections| > 0
      && forall i {:trigger pairs[i]} :: 0 <= i < |pairs| ==> GoodPair(pairs[i])
    ensures var r, last := Run(c, Lines(pairs)), |c.sections| - 1;
      r.mode == NewLine && r.stray == c.stray
      && r.sections == c.sections[last := c.sections[last].(pairs := Reversed(pairs) + c.sections[last].pairs)]
    decreases |pairs|
  {
    hide Step, Line, Reversed, GoodPair, Run;
    var last := |c.sections| - 1;
    if pairs == [] {
      assert Run(c, []) == c by { RunNothing(c); }
      assert Reversed(pairs) + c.sections[last].pairs == c.sections[last].pairs;
    } else {
      var fewer, p := pairs[..|pairs| - 1], pairs[|pairs| - 1];
      ReadLines(c, fewer);
      var d := Run(c, Lines(fewer));
      RunTwice(c, Lines(fewer), Line(p));
      ReadLine(d, p);
      ReversedMore(pairs);
      assert [p] + (Reversed(fewer) + c.sections[last].pairs) == Reversed(pairs) + c.sections[last].pairs;
    }
  }

  lemma RunNothing(c: Scan)
    ensures Run(c, []) == c
  {
  }

  lemma ReadHeading(c: Scan, name: seq<byte>)
    requires c.mode == NewLine && Free(name, CLOSE) && 0 !in name
    ensures var r := Run(c, Heading(name));
      r.mode == NewLine && r.stray == c.stray && r.sections == c.sections + [Section(name, [])]
  {
    OneStep(c, NL);
    OneStep(c, OPEN);
    RunTwice(c, [NL], [OPEN]);
    assert [NL] + [OPEN] == [NL, OPEN];
    var c1 := Run(c, [NL, OPEN]);
    ReadName(c1, name);
    assert [] + name == name;
    RunTwice(c, [NL, OPEN], name);
    var c2 := Run(c, [NL, OPEN] + name);
    OneStep(c2, CLOSE);
    OneStep(Step(c2, CLOSE), NL);
    RunTwice(c2, [CLOSE], [NL]);
    assert [CLOSE] + [NL] == [CLOSE, NL];
    RunTwice(c, [NL, OPEN] + name, [CLOSE, NL]);
  }

  lemma ReadSection(c: Scan, s: Section)
    requires c.mode == NewLine && GoodSection(s)
    ensures var r := Run(c, Heading(s.name) + Lines(s.pairs));
      r.mode == NewLine && r.stray == c.stray && r.sections == c.sections + [Section(s.name, Reversed(s.pairs))]
  {
    hide Run, Heading, Lines, Reversed, GoodPair;
    ReadHeading(c, s.name);
    RunTwice(c, Heading(s.name), Lines(s.pairs));
    var d := Run(c, Heading(s.name));
    ReadLines(d, s.pairs);
    assert Reversed(s.pairs) + [] == Reversed(s.pairs);
    assert d.sections[|c.sections| := Section(s.name, Reversed(s.pairs))] ==
      c.sections + [Section(s.name, Reversed(s.pairs))];
  }

  lemma MirroredMore(sections: seq<Section>)
    requires |sections| > 0
    ensures var s := sections[|sections| - 1];
      Mirrored(sections) == Mirrored(sections[..|sections| - 1]) + [Section(s.name, Reversed(s.pairs))]
  {
    hide Reversed;
  }

  /** Loading what was printed gives the sections back, each with its pairs reversed. */
  lemma {:induction false} RoundTrip(sections: seq<Section>)
    requires Good(sections)
    ensures var r := Run(START, Text(sections)); r.mode == NewLine && !r.stray && r.sections == Mirrored(sections)
    decreases |sections|
  {
    hide Run, Heading, Lines, Reversed, Mirrored, GoodSection;
    if sections == [] {
      RunNothing(START);
      assert Mirrored(sections) == [];
    } else {
      var fewer, s := sections[..|sections| - 1], sections[|sections| - 1];
      RoundTrip(fewer);
      ReadSection(Run(START, Text(fewer)), s);
      RunTwice(START, Text(fewer), Heading(s.name) + Lines(s.pairs));
      assert Text(fewer) + (Heading(s.name) + Lines(s.pairs)) == Text(sections);
      MirroredMore(sections);
    }
  }

  lemma ReversedGood(s: Section)
    requires GoodSection(s)
    ensures GoodSection(Section(s.name, Reversed(s.pairs))) && Reversed(Reversed(s.pairs)) == s.pairs
  {
    hide GoodPair, Free;
  }

  /** So doing it twice is the identity. */
  lemma TwiceIsIdentity(sections: seq<Section>)
    requires Good(sections)
    ensures Run(START, Text(Run(START, Text(sections)).sections)).sections == sections
  {
    hide Run, Text, Reversed, GoodSection;
    RoundTrip(sections);
    forall i | 0 <= i < |sections|
      ensures GoodSection(Mirrored(sections)[i]) && Reversed(Reversed(sections[i].pairs)) == sections[i].pairs
    {
      ReversedGood(sections[i]);
    }
    RoundTrip(Mirrored(sections));
    assert Mirrored(Mirrored(sections)) == sections;
  }

  // ----- lookups -----

  predicate HasLine(lines: seq<Pair>, name: seq<byte>) { exists i :: 0 <= i < |lines| && lines[i].name == name }

  // ----- what a text says -----

  /** A text is a list of section names and of pairs. */
  datatype Item = Named(name: seq<byte>) | Paired(pair: Pair)

  /** Where c first is, or the length. */
  function Until(s: seq<byte>, c: byte): (n: nat)
    ensures n <= |s| && Free(s[..n], c) && (n < |s| ==> s[n] == c)
  { if s == [] || s[0] == c then 0 else 1 + Until(s[1..], c) }

  /** The length of the first line with its newline, if it has one. */
  function LineLength(s: seq<byte>): (n: nat)
    ensures n <= |s| && (s != [] ==> n > 0)
  { if Until(s, NL) < |s| then Until(s, NL) + 1 else |s| }

  /** What the first line says, and its length. If it begins with [, it names a section up to the next ], which need not
      be on the same line, and the rest of the line of that ] is skipped. A line is skipped if it begins with # or a
      blank, if it has no = behind its first character, or if it has no newline. In any other line the first such =
      divides name and value. */
  function FirstLine(s: seq<byte>): (r: (seq<Item>, nat))
    requires s != []
    ensures 0 < r.1 <= |s| && |r.0| <= 1
  {
    if s[0] == OPEN then
      var e := Until(s, CLOSE);
      if e == |s| then ([], |s|) else ([Named(Cut(s[1..e]))], e + LineLength(s[e..]))
    else
      var n, e := Until(s, NL), 1 + Until(s[1..], EQUALS);
      (if s[0] == HASH || Blank(s[0]) || n == |s| || e >= n then [] else [Paired(Pair(Cut(s[..e]), Cut(s[e + 1..n])))],
       LineLength(s))
  }

  function Items(s: seq<byte>): seq<Item>
    decreases |s|
  { if s == [] then [] else FirstLine(s).0 + Items(s[FirstLine(s).1..]) }

  function NamesIn(items: seq<Item>): seq<seq<byte>>
    decreases |items|
  {
    if items == [] then []
    else
      var last := items[|items| - 1];
      NamesIn(items[..|items| - 1]) + if last.Named? then [last.name] else []
  }

  /** The pairs between the name of section k and the next one. */
  function PairsIn(items: seq<Item>, k: nat): seq<Pair>
    decreases |items|
  {
    if items == [] then []
    else
      var before, last := items[..|items| - 1], items[|items| - 1];
      PairsIn(before, k) + if last.Paired? && |NamesIn(before)| == k + 1 then [last.pair] else []
  }

  /** The pairs of a text's section k, in the order of its lines. */
  function PairsOf(text: seq<byte>, k: nat): seq<Pair> { PairsIn(Items(text), k) }

  /** The text has a pair before any section. */
  predicate Strays(text: seq<byte>) { Items(text) != [] && Items(text)[0].Paired? }

  function SectionNames(text: seq<byte>): seq<seq<byte>> { NamesIn(Items(text)) }

  // ----- the scanner reads what the text says -----

  /** What one item adds to what has been read. */
  function Put(c: Scan, x: Item): Scan {
    match x
    case Named(name) => c.(sections := c.sections + [Section(name, [])])
    case Paired(p) => AddPair(c, p)
  }

  function PutAll(c: Scan, items: seq<Item>): Scan
    decreases |items|
  { if items == [] then c else Put(PutAll(c, items[..|items| - 1]), items[|items| - 1]) }

  /** The same sections, and a stray pair in both or in neither. */
  predicate Same(c: Scan, d: Scan) { c.sections == d.sections && c.stray == d.stray }

  lemma {:induction false} PutSame(c: Scan, d: Scan, items: seq<Item>)
    requires Same(c, d)
    ensures Same(PutAll(c, items), PutAll(d, items))
    decreases |items|
  {
    if items != [] { PutSame(c, d, items[..|items| - 1]); }
  }

  lemma {:induction false} PutFirst(c: Scan, first: seq<Item>, items: seq<Item>)
    ensures PutAll(c, first + items) == PutAll(PutAll(c, first), items)
    decreases |items|
  {
    if items == [] {
      assert first + items == first;
    } else {
      PutFirst(c, first, items[..|items| - 1]);
      assert (first + items)[..|first + items| - 1] == first + items[..|items| - 1];
    }
  }

  lemma PutOne(c: Scan, x: Item)
    ensures PutAll(c, [x]) == Put(c, x) && PutAll(c, []) == c
  {
    assert [x][..0] == [];
    assert PutAll(c, []) == c;
  }

  lemma {:induction false} ReadSkipped(c: Scan, s: seq<byte>)
    requires c.mode == SkipLine && Free(s, NL)
    ensures Run(c, s) == c
    decreases |s|
  {
    if s != [] { ReadSkipped(c, s[..|s| - 1]); }
  }

  lemma RunOn(c: Scan, s: seq<byte>, i: int, j: int)
    requires 0 <= i <= j <= |s|
    ensures Run(c, s[..j]) == Run(Run(c, s[..i]), s[i..j])
  {
    RunTwice(c, s[..i], s[i..j]);
    assert s[..i] + s[i..j] == s[..j];
  }

  lemma RunOneMore(c: Scan, s: seq<byte>, i: int)
    requires 0 <= i < |s|
    ensures Run(c, s[..i + 1]) == Step(Run(c, s[..i]), s[i])
  {
    RunOn(c, s, i, i + 1);
    assert s[i..i + 1] == [s[i]];
    OneStep(Run(c, s[..i]), s[i]);
  }

  lemma ReadRest(c: Scan, s: seq<byte>)
    requires c.mode == SkipLine
    ensures var r := Run(c, s[..LineLength(s)]);
      Same(r, c) && (LineLength(s) < |s| ==> r.mode == NewLine)
  {
    hide Run;
    var n := Until(s, NL);
    ReadSkipped(c, s[..n]);
    if n < |s| { RunOneMore(c, s, n); }
  }

  /** The rest of the line, behind the character at e. */
  lemma RestOfLine(c: Scan, s: seq<byte>, e: int)
    requires c.mode == SkipLine && 0 <= e < |s| && s[e] != NL
    ensures var n := e + LineLength(s[e..]);
      e < n <= |s| && Same(Run(c, s[e + 1..n]), c) && (n < |s| ==> Run(c, s[e + 1..n]).mode == NewLine)
  {
    hide Run;
    var n := e + LineLength(s[e..]);
    assert s[e..][1..] == s[e + 1..];
    ReadRest(c, s[e + 1..]);
    assert s[e + 1..][..n - e - 1] == s[e + 1..n];
  }

  lemma ReadNameOf(c: Scan, s: seq<byte>, e: int)
    requires c.mode == NewLine && 1 <= e <= |s| && s[0] == OPEN && Free(s[..e], CLOSE)
    ensures Run(c, s[..e]) == c.(mode := Header, lhs := s[1..e])
  {
    hide Run, Blank;
    assert s[..0] == [];
    RunNothing(c);
    RunOneMore(c, s, 0);
    assert forall i :: 0 <= i < e - 1 ==> s[1..e][i] == s[..e][i + 1];
    ReadName(Run(c, s[..1]), s[1..e]);
    RunOn(c, s, 1, e);
    assert [] + s[1..e] == s[1..e];
  }

  lemma ReadHeader(c: Scan, s: seq<byte>)
    requires c.mode == NewLine && s != [] && s[0] == OPEN
    ensures var r, n := Run(c, s[..FirstLine(s).1]), FirstLine(s).1;
      Same(r, PutAll(c, FirstLine(s).0)) && (n < |s| ==> r.mode == NewLine)
  {
    hide Run, Cut, PutAll, LineLength, Free;
    var e := Until(s, CLOSE);
    ReadNameOf(c, s, e);
    PutOne(c, Named([]));
    if e < |s| {
      RunOneMore(c, s, e);
      var c2, n := Run(c, s[..e + 1]), FirstLine(s).1;
      PutOne(c, Named(Cut(s[1..e])));
      RestOfLine(c2, s, e);
      RunOn(c, s, e + 1, n);
    }
  }

  lemma ReadLhsOf(c: Scan, s: seq<byte>, m: int)
    requires c.mode == NewLine && 1 <= m <= |s| && s[0] != NL && s[0] != OPEN && s[0] != HASH && !Blank(s[0])
    requires Free(s[1..m], NL) && Free(s[1..m], EQUALS)
    ensures Run(c, s[..m]) == c.(mode := Lhs, lhs := s[..m])
  {
    hide Run, Free, Blank;
    assert s[..0] == [];
    RunNothing(c);
    RunOneMore(c, s, 0);
    ReadName(Run(c, s[..1]), s[1..m]);
    RunOn(c, s, 1, m);
    assert [s[0]] + s[1..m] == s[..m];
  }

  lemma FreePart(s: seq<byte>, c: byte, i: int, j: int, n: int)
    requires 0 <= i <= j <= n <= |s| && Free(s[i..n], c)
    ensures Free(s[i..j], c) && Free(s[j..n], c)
  {
    assert forall k :: 0 <= k < j - i ==> s[i..j][k] == s[i..n][k];
    assert forall k :: 0 <= k < n - j ==> s[j..n][k] == s[i..n][j - i + k];
  }

  lemma FirstAndRest(s: seq<byte>, e: int, n: int)
    requires 0 <= e < n <= |s|
    ensures s[e..n] == [s[e]] + s[e + 1..n]
  {
  }

  lemma ReadRhsOf(c: Scan, s: seq<byte>, e: int, n: int)
    requires c.mode == Lhs && 0 <= e < n <= |s| && s[e] == EQUALS && Free(s[e + 1..n], NL)
    ensures Run(c, s[e..n]) == c.(mode := Rhs, rhs := s[e + 1..n])
  {
    hide Run, Free;
    FirstAndRest(s, e, n);
    ReadRhs(c, s[e + 1..n]);
  }

  lemma LineParts(s: seq<byte>, n: int, e: int, m: int)
    requires s != [] && s[0] != NL && n == Until(s, NL) && e == 1 + Until(s[1..], EQUALS) && m == if e < n then e else n
    ensures 1 <= m <= n && Free(s[1..m], NL) && Free(s[1..m], EQUALS)
    ensures e < n ==> s[e] == EQUALS && Free(s[e + 1..n], NL)
  {
    hide Free;
    assert s[1..][..e - 1] == s[1..e] && s[..n] == s[0..n];
    FreePart(s, NL, 0, 1, n);
    FreePart(s, NL, 1, m, n);
    FreePart(s, EQUALS, 1, m, e);
    if e < n {
      assert s[1..][e - 1] == s[e];
      FreePart(s, NL, 0, e + 1, n);
    }
  }

  /** What has been read of a line that may hold a pair, up to its newline. */
  lemma ReadLhsAndRhs(c: Scan, s: seq<byte>)
    requires c.mode == NewLine && s != [] && s[0] != NL && s[0] != OPEN && s[0] != HASH && !Blank(s[0])
    ensures var n, e := Until(s, NL), 1 + Until(s[1..], EQUALS);
      1 <= n && Run(c, s[..n]) == if e < n then c.(mode := Rhs, lhs := s[..e], rhs := s[e + 1..n])
                                  else c.(mode := Lhs, lhs := s[..n])
  {
    hide Run, Free, Blank, Until;
    var n, e := Until(s, NL), 1 + Until(s[1..], EQUALS);
    var m := if e < n then e else n;
    LineParts(s, n, e, m);
    ReadLhsOf(c, s, m);
    if e < n {
      ReadRhsOf(c.(mode := Lhs, lhs := s[..e]), s, e, n);
      RunOn(c, s, e, n);
    }
  }

  lemma PairLineSays(s: seq<byte>)
    requires s != [] && s[0] != OPEN && s[0] != HASH && !Blank(s[0])
    ensures var n, e := Until(s, NL), 1 + Until(s[1..], EQUALS);
      && FirstLine(s).1 == (if n < |s| then n + 1 else n)
      && FirstLine(s).0 == if e < n < |s| then [Paired(Pair(Cut(s[..e]), Cut(s[e + 1..n])))] else []
  {
    hide Free, Blank, Cut, Until;
  }

  lemma LineEnds(c: Scan, n: seq<byte>)
    ensures var d := c.(mode := Lhs, lhs := n); Same(d, c) && Same(Step(d, NL), c) && Step(d, NL).mode == NewLine
  {
  }

  lemma PairEnds(c: Scan, n: seq<byte>, v: seq<byte>)
    ensures var d := c.(mode := Rhs, lhs := n, rhs := v);
      Same(d, c) && Same(Step(d, NL), Put(c, Paired(Pair(Cut(n), Cut(v))))) && Step(d, NL).mode == NewLine
  {
    hide Cut;
  }

  lemma ReadEnd(c: Scan, s: seq<byte>, n: int, e: int, items: seq<Item>, length: int)
    requires 1 <= n <= |s| && (n < |s| ==> s[n] == NL) && 1 <= e && length == (if n < |s| then n + 1 else n)
    requires Run(c, s[..n]) == if e < n then c.(mode := Rhs, lhs := s[..e], rhs := s[e + 1..n])
                               else c.(mode := Lhs, lhs := s[..n])
    requires items == if e < n < |s| then [Paired(Pair(Cut(s[..e]), Cut(s[e + 1..n])))] else []
    ensures var r := Run(c, s[..length]); Same(r, PutAll(c, items)) && (length < |s| ==> r.mode == NewLine)
  {
    hide Run, Cut, PutAll, Put, Step, Same;
    PutOne(c, Named([]));
    if n < |s| { RunOneMore(c, s, n); }
    if e < n {
      PairEnds(c, s[..e], s[e + 1..n]);
      PutOne(c, Paired(Pair(Cut(s[..e]), Cut(s[e + 1..n]))));
    } else {
      LineEnds(c, s[..n]);
    }
  }

  lemma ReadPairLine(c: Scan, s: seq<byte>)
    requires c.mode == NewLine && s != [] && s[0] != NL && s[0] != OPEN && s[0] != HASH && !Blank(s[0])
    ensures var r, n := Run(c, s[..FirstLine(s).1]), FirstLine(s).1;
      Same(r, PutAll(c, FirstLine(s).0)) && (n < |s| ==> r.mode == NewLine)
  {
    hide Run, Cut, PutAll, Free, Blank, Until, FirstLine, Same;
    ReadLhsAndRhs(c, s);
    PairLineSays(s);
    ReadEnd(c, s, Until(s, NL), 1 + Until(s[1..], EQUALS), FirstLine(s).0, FirstLine(s).1);
  }

  lemma ReadFirst(c: Scan, s: seq<byte>)
    requires c.mode == NewLine && s != []
    ensures var r, n := Run(c, s[..FirstLine(s).1]), FirstLine(s).1;
      Same(r, PutAll(c, FirstLine(s).0)) && (n < |s| ==> r.mode == NewLine)
  {
    hide Run, Cut, PutAll, Free, Blank;
    if s[0] == OPEN {
      ReadHeader(c, s);
    } else if s[0] == NL || s[0] == HASH || Blank(s[0]) {
      PutOne(c, Named([]));
      assert s[..0] == [];
      RunNothing(c);
      RunOneMore(c, s, 0);
      if s[0] != NL {
        RestOfLine(Run(c, s[..1]), s, 0);
        assert s[0..] == s;
        RunOn(c, s, 1, LineLength(s));
      }
    } else {
      ReadPairLine(c, s);
    }
  }

  /** From the start of a line on, the scanner reads what the text says. */
  lemma {:induction false} ReadsItems(c: Scan, s: seq<byte>)
    requires c.mode == NewLine
    ensures Same(Run(c, s), PutAll(c, Items(s)))
    decreases |s|
  {
    hide Run, PutAll, FirstLine;
    if s == [] {
      RunNothing(c);
      PutOne(c, Named([]));
    } else {
      var first, n := FirstLine(s).0, FirstLine(s).1;
      var d := Run(c, s[..n]);
      ReadFirst(c, s);
      RunOn(c, s, n, |s|);
      assert s[..|s|] == s && s[n..|s|] == s[n..];
      PutFirst(c, first, Items(s[n..]));
      if n < |s| {
        ReadsItems(d, s[n..]);
        PutSame(d, PutAll(c, first), Items(s[n..]));
      } else {
        RunNothing(d);
        PutOne(PutAll(c, first), Named([]));
      }
    }
  }

  ghost predicate Holds(S: seq<Section>, k: nat, lines: seq<Pair>) {
    if k < |S| then S[k].pairs == Reversed(lines) else lines == []
  }

  ghost predicate HaveNames(S: seq<Section>, names: seq<seq<byte>>) {
    |S| == |names| && forall i {:trigger S[i]} {:trigger names[i]} :: 0 <= i < |S| ==> S[i].name == names[i]
  }

  lemma PutHolds(c: Scan, x: Item, k: nat, lines: seq<Pair>)
    requires Holds(c.sections, k, lines)
    ensures Holds(Put(c, x).sections, k, lines + if x.Paired? && |c.sections| == k + 1 then [x.pair] else [])
  {
    hide Reversed;
    if x.Paired? && |c.sections| == k + 1 {
      var more := lines + [x.pair];
      ReversedMore(more);
      assert more[..|more| - 1] == lines;
    } else {
      assert lines + [] == lines;
      if k == |c.sections| { NoLines(); }
    }
  }

  lemma NothingHeld(k: nat)
    ensures Holds([], k, [])
  {
  }

  lemma {:induction false} PutAllHolds(items: seq<Item>, k: nat)
    ensures var c := PutAll(START, items);
      Holds(c.sections, k, PairsIn(items, k)) && HaveNames(c.sections, NamesIn(items))
      && (c.stray <==> items != [] && items[0].Paired?) && (NamesIn(items) == [] ==> items == [] || items[0].Paired?)
    decreases |items|
  {
    hide Holds;
    if items == [] {
      NothingHeld(k);
    } else {
      var before := items[..|items| - 1];
      PutAllHolds(before, k);
      PutHolds(PutAll(START, before), items[|items| - 1], k, PairsIn(before, k));
    }
  }

  /** A loaded text has the sections that it names, and each holds the pairs of its lines, the last one first; a pair is
      stray exactly if one comes before any section. */
  lemma SectionPairs(text: seq<byte>, k: nat)
    ensures var r := Run(START, text);
      HaveNames(r.sections, SectionNames(text)) && (r.stray <==> Strays(text)) && Holds(r.sections, k, PairsOf(text, k))
  {
    hide Run, PutAll, Holds, PairsIn, Items;
    ReadsItems(START, text);
    PutAllHolds(Items(text), k);
  }

  lemma NoLines()
    ensures Reversed([]) == []
  {
  }

  // ----- the scanner in place -----

  /** The source's structures: strings are offsets into the text, which the scanner cuts up with zero bytes. */
  datatype PairAt = PairAt(name: int, value: int)

  datatype SectionAt = SectionAt(name: int, pairs: seq<PairAt>)

  /** The C string at offset o, which ends below limit, is s. */
  ghost predicate StringAt(buf: seq<byte>, o: int, s: seq<byte>, limit: int) {
    0 <= o && o + |s| < limit <= |buf| && buf[o..o + |s|] == s && buf[o + |s|] == 0 && 0 !in s
  }

  ghost predicate PairIs(buf: seq<byte>, p: PairAt, q: Pair, limit: int) {
    StringAt(buf, p.name, q.name, limit) && StringAt(buf, p.value, q.value, limit)
  }

  ghost predicate SectionIs(buf: seq<byte>, s: SectionAt, t: Section, limit: int) {
    StringAt(buf, s.name, t.name, limit) && |s.pairs| == |t.pairs|
    && forall j {:trigger s.pairs[j]} {:trigger t.pairs[j]} ::
       0 <= j < |s.pairs| ==> PairIs(buf, s.pairs[j], t.pairs[j], limit)
  }

  ghost predicate SectionsAre(buf: seq<byte>, S: seq<SectionAt>, T: seq<Section>, limit: int) {
    |S| == |T| && forall k {:trigger S[k]} {:trigger T[k]} :: 0 <= k < |S| ==> SectionIs(buf, S[k], T[k], limit)
  }

  lemma StringStays(buf: seq<byte>, o: int, s: seq<byte>, i: int, buf': seq<byte>)
    requires StringAt(buf, o, s, i) && |buf'| == |buf| && i < |buf| && buf'[..i] == buf[..i]
    ensures StringAt(buf', o, s, i + 1)
  {
    assert buf'[o..o + |s|] == buf'[..i][o..o + |s|] && buf[o..o + |s|] == buf[..i][o..o + |s|];
    assert buf'[o + |s|] == buf'[..i][o + |s|] && buf[o + |s|] == buf[..i][o + |s|];
  }

  lemma PairStays(buf: seq<byte>, p: PairAt, q: Pair, i: int, buf': seq<byte>)
    requires PairIs(buf, p, q, i) && |buf'| == |buf| && i < |buf| && buf'[..i] == buf[..i]
    ensures PairIs(buf', p, q, i + 1)
  {
    hide StringAt;
    StringStays(buf, p.name, q.name, i, buf');
    StringStays(buf, p.value, q.value, i, buf');
  }

  /** What has been cut off is not touched again. */
  lemma SectionsStay(buf: seq<byte>, S: seq<SectionAt>, T: seq<Section>, i: int, buf': seq<byte>)
    requires SectionsAre(buf, S, T, i) && |buf'| == |buf| && 0 <= i < |buf| && buf'[..i] == buf[..i]
    ensures SectionsAre(buf', S, T, i + 1)
  {
    hide StringAt, PairIs;
    forall k {:trigger S[k]} {:trigger T[k]} | 0 <= k < |S| ensures SectionIs(buf', S[k], T[k], i + 1) {
      StringStays(buf, S[k].name, T[k].name, i, buf');
      forall j {:trigger S[k].pairs[j]} {:trigger T[k].pairs[j]} | 0 <= j < |S[k].pairs|
        ensures PairIs(buf', S[k].pairs[j], T[k].pairs[j], i + 1)
      {
        PairStays(buf, S[k].pairs[j], T[k].pairs[j], i, buf');
      }
    }
  }

  /** A zero byte at i ends the string that began at o. */
  lemma StringEnds(buf: seq<byte>, o: int, acc: seq<byte>, i: int, buf': seq<byte>)
    requires 0 <= o && o + |acc| == i < |buf| && buf[o..i] == acc && buf' == buf[i := 0]
    ensures StringAt(buf', o, Cut(acc), i + 1)
  {
    var n := |Cut(acc)|;
    assert buf'[o..i] == acc;
    assert buf'[o..o + n] == acc[..n];
    assert n < |acc| ==> buf'[o + n] == acc[n];
  }

  lemma AnotherSection(buf: seq<byte>, S: seq<SectionAt>, T: seq<Section>, i: int, o: int, name: seq<byte>)
    requires SectionsAre(buf, S, T, i) && StringAt(buf, o, name, i)
    ensures SectionsAre(buf, S + [SectionAt(o, [])], T + [Section(name, [])], i)
  {
    hide StringAt, PairIs;
  }

  lemma AnotherPair(buf: seq<byte>, S: seq<SectionAt>, T: seq<Section>, i: int, p: PairAt, q: Pair)
    requires SectionsAre(buf, S, T, i) && PairIs(buf, p, q, i) && |S| > 0
    ensures var k := |S| - 1;
      SectionsAre(buf, S[k := S[k].(pairs := [p] + S[k].pairs)], T[k := T[k].(pairs := [q] + T[k].pairs)], i)
  {
    hide StringAt, PairIs;
    var k := |S| - 1;
    var S', T' := S[k := S[k].(pairs := [p] + S[k].pairs)], T[k := T[k].(pairs := [q] + T[k].pairs)];
    forall x {:trigger S'[x]} {:trigger T'[x]} | 0 <= x < |S'| ensures SectionIs(buf, S'[x], T'[x], i) {
      assert SectionIs(buf, S[x], T[x], i);
    }
  }

  /** Where the string that is being read begins. */
  ghost predicate Reading(buf: seq<byte>, c: Scan, lhs: int, rhs: int, i: int) {
    match c.mode
    case NewLine => true
    case SkipLine => true
    case Header => 0 <= lhs && lhs + |c.lhs| == i <= |buf| && buf[lhs..i] == c.lhs
    case Lhs => 0 <= lhs && lhs + |c.lhs| == i <= |buf| && buf[lhs..i] == c.lhs
    case Rhs => 0 <= rhs && rhs + |c.rhs| == i <= |buf| && buf[rhs..i] == c.rhs && StringAt(buf, lhs, Cut(c.lhs), i)
  }

  lemma ReadOn(buf: seq<byte>, o: int, acc: seq<byte>, i: int)
    requires 0 <= o && o + |acc| == i < |buf| && buf[o..i] == acc
    ensures buf[o..i + 1] == acc + [buf[i]]
  {
  }

  lemma RunMore(text: seq<byte>, i: int)
    requires 0 <= i < |text|
    ensures Run(START, text[..i + 1]) == Step(Run(START, text[..i]), text[i])
  {
    assert text[..i + 1][..i] == text[..i];
  }

  /** One turn of the switch, for the character ch at i. */
  method Advance(data: array<byte>, i: int, ch: byte, state: Mode, lhs: int, rhs: int, sections: seq<SectionAt>,
                 ghost c: Scan)
    returns (sections': seq<SectionAt>, state': Mode, lhs': int, rhs': int, ok: bool)
    requires 0 <= i < data.Length && data[i] == ch && state == c.mode && !c.stray
    requires SectionsAre(data[..], sections, c.sections, i) && Reading(data[..], c, lhs, rhs, i)
    modifies data
    ensures data[i + 1..] == old(data[i + 1..])
    ensures state' == Step(c, ch).mode && (ok <==> !Step(c, ch).stray)
    ensures ok ==>
      SectionsAre(data[..], sections', Step(c, ch).sections, i + 1) && Reading(data[..], Step(c, ch), lhs', rhs', i + 1)
  {
    hide SectionsAre, StringAt, Cut;
    ghost var buf := data[..];
    sections', state', lhs', rhs', ok := sections, state, lhs, rhs, true;
    SectionsStay(buf, sections, c.sections, i, buf);
    match state
    case SkipLine =>
      if ch == NL { state' := NewLine; }
    case NewLine =>
      if ch == NL {
      } else if ch == OPEN {
        lhs', state' := i + 1, Header;
      } else if ch == HASH || Blank(ch) {
        state' := SkipLine;
      } else {
        lhs', state' := i, Lhs;
      }
    case Header =>
      if ch == CLOSE {
        data[i] := 0;
        StringEnds(buf, lhs, c.lhs, i, data[..]);
        SectionsStay(buf, sections, c.sections, i, data[..]);
        AnotherSection(data[..], sections, c.sections, i + 1, lhs, Cut(c.lhs));
        sections', state' := sections + [SectionAt(lhs, [])], SkipLine;
      } else {
        ReadOn(buf, lhs, c.lhs, i);
      }
    case Lhs =>
      if ch == NL {
        state' := NewLine;
      } else if ch == EQUALS {
        data[i] := 0;
        StringEnds(buf, lhs, c.lhs, i, data[..]);
        SectionsStay(buf, sections, c.sections, i, data[..]);
        rhs', state' := i + 1, Rhs;
      } else {
        ReadOn(buf, lhs, c.lhs, i);
      }
    case Rhs =>
      if ch == NL {
        SameLength(buf, sections, c.sections, i);
        state' := NewLine;
        data[i] := 0;
        if sections == [] {
          ok := false;
        } else {
          StringEnds(buf, rhs, c.rhs, i, data[..]);
          StringStays(buf, lhs, Cut(c.lhs), i, data[..]);
          SectionsStay(buf, sections, c.sections, i, data[..]);
          AnotherPair(data[..], sections, c.sections, i + 1, PairAt(lhs, rhs), Pair(Cut(c.lhs), Cut(c.rhs)));
          var k := |sections| - 1;
          sections' := sections[k := sections[k].(pairs := [PairAt(lhs, rhs)] + sections[k].pairs)];
        }
      } else {
        ReadOn(buf, rhs, c.rhs, i);
        StringStays(buf, lhs, Cut(c.lhs), i, buf);
      }
  }

  lemma SameLength(buf: seq<byte>, S: seq<SectionAt>, T: seq<Section>, limit: int)
    requires SectionsAre(buf, S, T, limit)
    ensures |S| == |T|
  {
  }

  lemma NoSections(buf: seq<byte>)
    ensures SectionsAre(buf, [], [], 0)
  {
  }

  lemma {:induction false} StrayStays(c: Scan, s: seq<byte>)
    requires c.stray
    ensures Run(c, s).stray
    decreases |s|
  {
    if s != [] { StrayStays(c, s[..|s| - 1]); }
  }

  /** load_ini of a text that has been read into data. A pair before any section is added to a section that was never
      set; ok tells that this has not happened. */
  method LoadIni(data: array<byte>) returns (ok: bool, sections: seq<SectionAt>)
    modifies data
    ensures var r := Run(START, old(data[..]));
      (ok <==> !r.stray) && (ok ==> SectionsAre(data[..], sections, r.sections, data.Length))
  {
    hide Run, SectionsAre, StringAt, Cut, Blank;
    ghost var text := data[..];
    ghost var c := START;
    var state, lhs, rhs, i := NewLine, 0, 0, 0;
    sections := [];
    RunNothing(START);
    NoSections(text);
    while i < data.Length
      invariant 0 <= i <= data.Length && data[i..] == text[i..] && c == Run(START, text[..i]) && !c.stray
        && state == c.mode
      invariant SectionsAre(data[..], sections, c.sections, i) && Reading(data[..], c, lhs, rhs, i)
    {
      ghost var buf := data[..];
      var ch := data[i];
      assert ch == data[i..][0] == text[i];
      RunMore(text, i);
      ghost var d := Step(c, ch);
      sections, state, lhs, rhs, ok := Advance(data, i, ch, state, lhs, rhs, sections, c);
      c := d;
      if !ok {
        RunOn(START, text, i + 1, |text|);
        assert text[..|text|] == text;
        StrayStays(c, text[i + 1..|text|]);
        return;
      }
      i := i + 1;
      assert data[i..] == data[i - 1..][1..] && text[i..] == text[i - 1..][1..];
    }
    assert text[..i] == text;
    ok := true;
  }

  // ----- lookups in place -----

  /** strcmp of the string at o, which is t, with a string that has no zero byte in it. */
  method SameString(data: array<byte>, o: int, name: seq<byte>, ghost t: seq<byte>) returns (same: bool)
    requires StringAt(data[..], o, t, data.Length) && 0 !in name
    ensures same <==> t == name
  {
    assert forall j {:trigger t[j]} :: 0 <= j < |t| ==> data[o + j] == t[j] by {
      assert forall j :: 0 <= j < |t| ==> data[..][o..o + |t|][j] == t[j];
    }
    var i := 0;
    while i < |name| && data[o + i] == name[i]
      invariant 0 <= i <= |name| && i <= |t| && t[..i] == name[..i]
    {
      assert i < |t| by { assert data[o + |t|] == 0; }
      i := i + 1;
    }
    same := i == |name| && data[o + i] == 0;
    assert i < |t| ==> data[o + i] != 0;
    assert same ==> i == |t| && t[..i] == t && name[..i] == name;
  }

  /** getval: the offset of the value of the first pair with this name. getvaldef gives its default if there is none. */
  method GetVal(data: array<byte>, s: SectionAt, name: seq<byte>, ghost t: Section) returns (found: bool, o: int)
    requires SectionIs(data[..], s, t, data.Length) && 0 !in name
    ensures found <==> exists i :: 0 <= i < |t.pairs| && t.pairs[i].name == name
    ensures found ==> exists i {:trigger t.pairs[i]} ::
      && 0 <= i < |t.pairs| && t.pairs[i].name == name && (forall j :: 0 <= j < i ==> t.pairs[j].name != name)
      && StringAt(data[..], o, t.pairs[i].value, data.Length)
  {
    hide StringAt;
    o := 0;
    var i := 0;
    while i < |s.pairs|
      invariant 0 <= i <= |s.pairs| && forall j :: 0 <= j < i ==> t.pairs[j].name != name
    {
      assert PairIs(data[..], s.pairs[i], t.pairs[i], data.Length);
      found := SameString(data, s.pairs[i].name, name, t.pairs[i].name);
      if found { return true, s.pairs[i].value; }
      i := i + 1;
    }
    found := false;
  }

  /** Loading any text that has no pair before its first section, and looking a name up in section k, finds the value of
      the last line of that section with that name, if there is such a line. */
  method LookupFindsLastLine(data: array<byte>, k: nat, name: seq<byte>) returns (ok: bool, found: bool, o: int)
    requires 0 !in name
    modifies data
    ensures ok <==> !Strays(old(data[..])) && k < |SectionNames(old(data[..]))|
    ensures ok ==> (found <==> HasLine(PairsOf(old(data[..]), k), name))
    ensures ok && found ==>
      var lines := PairsOf(old(data[..]), k);
      exists i {:trigger lines[i]} ::
        && 0 <= i < |lines| && lines[i].name == name && (forall j :: i < j < |lines| ==> lines[j].name != name)
        && StringAt(data[..], o, lines[i].value, data.Length)
  {
    hide Run, StringAt, PairsOf, Reversed, Strays, SectionNames;
    ghost var text := data[..];
    SectionPairs(text, k);
    var sections;
    found, o := false, 0;
    ok, sections := LoadIni(data);
    if !ok { return; }
    ghost var T := Run(START, text).sections;
    SameLength(data[..], sections, T, data.Length);
    if k >= |sections| { return false, false, 0; }
    assert SectionIs(data[..], sections[k], T[k], data.Length);
    found, o := GetVal(data, sections[k], name, T[k]);
    LastIsFirst(PairsOf(text, k), name, T[k].pairs, data[..], o, data.Length);
  }

  /** The first of the pairs in stored order is the last one of the lines. */
  lemma LastIsFirst(lines: seq<Pair>, name: seq<byte>, pairs: seq<Pair>, buf: seq<byte>, o: int, limit: int)
    requires pairs == Reversed(lines)
    ensures HasLine(lines, name) <==> exists i :: 0 <= i < |pairs| && pairs[i].name == name
    ensures (exists i {:trigger pairs[i]} ::
        && 0 <= i < |pairs| && pairs[i].name == name && (forall j :: 0 <= j < i ==> pairs[j].name != name)
        && StringAt(buf, o, pairs[i].value, limit)) ==>
      exists i {:trigger lines[i]} ::
        && 0 <= i < |lines| && lines[i].name == name && (forall j :: i < j < |lines| ==> lines[j].name != name)
        && StringAt(buf, o, lines[i].value, limit)
  {
    hide StringAt;
    if HasLine(lines, name) {
      var i :| 0 <= i < |lines| && lines[i].name == name;
      assert pairs[|lines| - 1 - i].name == name;
    }
    if i {:trigger pairs[i]} :|
      && 0 <= i < |pairs| && pairs[i].name == name && (forall j :: 0 <= j < i ==> pairs[j].name != name)
      && StringAt(buf, o, pairs[i].value, limit)
    {
      var k := |lines| - 1 - i;
      assert lines[k] == pairs[i];
      assert forall j :: k < j < |lines| ==> lines[j] == pairs[|lines| - 1 - j];
    }
  }
}
