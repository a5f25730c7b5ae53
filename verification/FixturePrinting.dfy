/** A printer of tagged fixtures and its round trip through the scanner. */
module FixturePrinting {
  import opened Results
  import opened Text
  import opened FixtureScanner
  import opened FixtureProperties

  /** The white space of a tag line. */
  datatype TagStyle = TagStyle(lead: string, gap: string, beforeName: string, afterName: string, tail: string)

  /** The freedom in writing a fence: indentation, marker, markers beyond the
      first three, spacing and case of the info string, a longer closing fence. */
  datatype FenceStyle = FenceStyle(
    indent: nat, marker: char, extra: nat, before: string, info: string, after: string,
    closeIndent: nat, closeExtra: nat, tail: string)

  /** Text between fixtures: a line, or a whole fenced example without a tag. */
  datatype Prose = Line(line: string) | Example(open: string, body: seq<string>, close: string)

  /** Some prose, then one fixture: its tag, blank lines, its JSON. */
  datatype Block = Block(
    prose: seq<Prose>, tag: TagStyle, name: string, blanks: seq<string>,
    fence: FenceStyle, json: seq<string>)

  predicate IsName(name: string) {
    && name != [] && !('0' <= name[0] <= '9')
    && forall i :: 0 <= i < |name| ==>
         'A' <= name[i] <= 'Z' || 'a' <= name[i] <= 'z' || name[i] == '_' || '0' <= name[i] <= '9'
  }

  /** A line that neither opens a fence nor is a tag, or a fence that its last
      line is the first to close; anything else may stand inside. */
  predicate IsProse(p: Prose) {
    match p
    case Line(line) => OpeningFence(line).None? && FixtureTag(line).None?
    case Example(open, body, close) => Closes(open, body, close)
  }

  function LinesOf(p: Prose): seq<string> {
    match p
    case Line(line) => [line]
    case Example(open, body, close) => [open] + body + [close]
  }

  function ProseLines(prose: seq<Prose>): seq<string> {
    if prose == [] then [] else LinesOf(prose[0]) + ProseLines(prose[1..])
  }

  predicate GoodTag(t: TagStyle) {
    AllSpace(t.lead) && AllSpace(t.gap) && AllSpace(t.beforeName) && AllSpace(t.afterName) && AllSpace(t.tail)
  }

  predicate OneLine(s: string) { '\r' !in s && '\n' !in s }

  predicate GoodFence(f: FenceStyle) {
    && f.indent <= 3 && f.closeIndent <= 3 && f.marker in {'`', '~'}
    && AllSpace(f.before) && AllSpace(f.after) && AllSpace(f.tail)
    && OneLine(f.before) && OneLine(f.after) && IsJsonInfo(f.info)
  }

  predicate Printable(b: Block) {
    && IsName(b.name) && GoodTag(b.tag) && GoodFence(b.fence)
    && (forall i :: 0 <= i < |b.prose| ==> IsProse(b.prose[i]))
    && (forall i :: 0 <= i < |b.blanks| ==> AllSpace(b.blanks[i]))
    && forall i :: 0 <= i < |b.json| ==> !IsClosing(b.json[i], b.fence.marker, FenceLength(b.fence))
  }

  function Marks(c: char, n: nat): (s: string)
    ensures |s| == n && forall i :: 0 <= i < n ==> s[i] == c
  {
    seq(n, _ => c)
  }

  function FenceLength(f: FenceStyle): nat { 3 + f.extra }

  function TagLine(t: TagStyle, name: string): string {
    t.lead + ("<!--" + (t.gap + ("contract-fixture:" + (t.beforeName + (name + (t.afterName + ("-->" + t.tail)))))))
  }

  function OpenLine(f: FenceStyle): string {
    Marks(' ', f.indent) + (Marks(f.marker, FenceLength(f)) + (f.before + f.info + f.after))
  }

  function CloseLine(f: FenceStyle): string {
    Marks(' ', f.closeIndent) + (Marks(f.marker, FenceLength(f) + f.closeExtra) + f.tail)
  }

  function PrintFixture(b: Block): seq<string> {
    [TagLine(b.tag, b.name)] + b.blanks + [OpenLine(b.fence)] + b.json + [CloseLine(b.fence)]
  }

  function PrintBlocks(blocks: seq<Block>): seq<string> {
    if blocks == [] then [] else ProseLines(blocks[0].prose) + PrintFixture(blocks[0]) + PrintBlocks(blocks[1..])
  }

  /** What the extraction of printed blocks has to be. */
  function Expected(blocks: seq<Block>, line: nat): seq<Fixture> {
    if blocks == [] then []
    else
      var b := blocks[0];
      var tagAt := line + |ProseLines(b.prose)|;
      [Fixture(tagAt + 1, b.name, Join(b.json, "\n"))] + Expected(blocks[1..], tagAt + |PrintFixture(b)|)
  }

  // ---- The printed lines are read as intended ----

  lemma AfterPrefix(prefix: string, s: string)
    ensures prefix <= prefix + s && (prefix + s)[|prefix|..] == s && (prefix + s)[..|prefix|] == prefix
  {
  }

  lemma {:induction false} NameRunIs(name: string, rest: string)
    requires (forall i :: 0 <= i < |name| ==> IsNameChar(name[i])) && (rest == [] || !IsNameChar(rest[0]))
    ensures NameRun(name + rest) == |name|
  {
    if name == [] {
      assert name + rest == rest;
    } else {
      assert (name + rest)[1..] == name[1..] + rest;
      NameRunIs(name[1..], rest);
    }
  }

  lemma TagParts(t: TagStyle, name: string)
    requires IsName(name) && GoodTag(t)
    ensures var d := CLOSE_COMMENT + t.tail;
            var c := name + (t.afterName + d);
            var b := KEYWORD + (t.beforeName + c);
            var a := OPEN_COMMENT + (t.gap + b);
            TagLine(t, name) == t.lead + a && SkipSpace(t.lead + a) == a && SkipSpace(t.gap + b) == b
            && SkipSpace(t.beforeName + c) == c && SkipSpace(t.afterName + d) == d && NameRun(c) == |name| && IsNameStart(c[0])
  {
    var d := CLOSE_COMMENT + t.tail;
    var c := name + (t.afterName + d);
    var b := KEYWORD + (t.beforeName + c);
    var a := OPEN_COMMENT + (t.gap + b);
    SkipsSpace(t.lead, a);
    SkipsSpace(t.gap, b);
    assert !IsSpace(name[0]);
    SkipsSpace(t.beforeName, c);
    SkipsSpace(t.afterName, d);
    assert t.afterName != [] ==> IsSpace(t.afterName[0]);
    assert !IsNameChar((t.afterName + d)[0]);
    NameRunIs(name, t.afterName + d);
  }

  lemma TagLineIsTag(t: TagStyle, name: string)
    requires IsName(name) && GoodTag(t)
    ensures FixtureTag(TagLine(t, name)) == Some(name)
  {
    hide SkipSpace, NameRun, AllSpace, IsSpace, IsNameChar, IsNameStart, TagLine;
    var d := CLOSE_COMMENT + t.tail;
    var c := name + (t.afterName + d);
    var b := KEYWORD + (t.beforeName + c);
    TagParts(t, name);
    AfterPrefix(OPEN_COMMENT, t.gap + b);
    AfterPrefix(KEYWORD, t.beforeName + c);
    AfterPrefix(name, t.afterName + d);
    AfterPrefix(CLOSE_COMMENT, t.tail);
  }

  lemma RunIs(s: string, c: char, n: nat)
    requires n <= |s| && (forall i :: 0 <= i < n ==> s[i] == c) && (n < |s| ==> s[n] != c)
    ensures Run(s, c) == n
  {
  }

  lemma MarksRun(c: char, n: nat, rest: string)
    requires rest == [] || rest[0] != c
    ensures Run(Marks(c, n) + rest, c) == n && (Marks(c, n) + rest)[n..] == rest
  {
    RunIs(Marks(c, n) + rest, c, n);
  }

  lemma UnindentedIs(n: nat, s: string)
    requires n <= 3 && s != [] && s[0] != ' '
    ensures Unindented(Marks(' ', n) + s) == s
  {
    MarksRun(' ', n, s);
  }

  /** A tag line starts with white space or `<`, never with a fence. */
  lemma TagLineIsNoFence(t: TagStyle, name: string)
    requires GoodTag(t)
    ensures OpeningFence(TagLine(t, name)).None?
  {
    var line := TagLine(t, name);
    assert line[|t.lead|] == '<';
    assert forall i :: 0 <= i < |t.lead| ==> line[i] == t.lead[i];
    var n := if Run(line, ' ') <= 3 then Run(line, ' ') else 3;
    assert Run(line, ' ') <= |t.lead|;
    assert n < |line| && (n < |t.lead| ==> IsSpace(line[n]));
    assert Unindented(line)[0] == line[n];
  }

  lemma JsonInfoFacts(info: string)
    requires IsJsonInfo(info)
    ensures OneLine(info) && '`' !in info && forall i :: 0 <= i < 4 ==> !IsSpace(info[i])
    ensures info[0] != '`' && info[0] != '~'
  {
  }

  lemma InfoSpace(f: FenceStyle)
    requires GoodFence(f)
    ensures var tail := f.before + f.info + f.after; Strip(tail) == f.info && OneLine(tail) && tail[0] != f.marker
  {
    JsonInfoFacts(f.info);
    Strips(f.before, f.info, f.after);
    assert f.before != [] ==> IsSpace(f.before[0]);
  }

  lemma OpenLineOpens(f: FenceStyle)
    requires GoodFence(f)
    ensures OpeningFence(OpenLine(f)) == Some(Fence(f.marker, FenceLength(f), f.info))
    ensures !AllSpace(OpenLine(f))
  {
    var n, tail := FenceLength(f), f.before + f.info + f.after;
    var rest := Marks(f.marker, n) + tail;
    InfoSpace(f);
    JsonInfoFacts(f.info);
    assert rest[0] == f.marker;
    UnindentedIs(f.indent, rest);
    MarksRun(f.marker, n, tail);
    assert !IsSpace(OpenLine(f)[f.indent]);
    hide Strip, IsSpace, IsJsonInfo, Unindented, FenceLength;
  }

  lemma ShortLineDoesNotClose(line: string, marker: char, minimum: nat)
    requires |line| < minimum
    ensures !IsClosing(line, marker, minimum)
  {
  }

  lemma LongRunCloses(indent: nat, marker: char, n: nat, tail: string, minimum: nat)
    requires indent <= 3 && marker in {'`', '~'} && 1 <= minimum <= n && AllSpace(tail)
    ensures IsClosing(Marks(' ', indent) + (Marks(marker, n) + tail), marker, minimum)
  {
    var rest := Marks(marker, n) + tail;
    assert rest[0] == marker;
    UnindentedIs(indent, rest);
    assert tail != [] ==> IsSpace(tail[0]);
    MarksRun(marker, n, tail);
    hide Unindented, Marks;
  }

  lemma CloseLineCloses(f: FenceStyle)
    requires GoodFence(f)
    ensures IsClosing(CloseLine(f), f.marker, FenceLength(f))
  {
    hide IsClosing, Marks;
    LongRunCloses(f.closeIndent, f.marker, FenceLength(f) + f.closeExtra, f.tail, FenceLength(f));
  }

  /** Every JSON text can be printed: a fence longer than all its lines is closed
      by none of them. */
  lemma LongFenceHoldsAnything(f: FenceStyle, json: seq<string>)
    requires forall i :: 0 <= i < |json| ==> |json[i]| <= f.extra
    ensures forall i :: 0 <= i < |json| ==> !IsClosing(json[i], f.marker, FenceLength(f))
  {
    hide IsClosing;
    forall i | 0 <= i < |json| ensures !IsClosing(json[i], f.marker, FenceLength(f)) {
      ShortLineDoesNotClose(json[i], f.marker, FenceLength(f));
    }
  }

  /** Four spaces of indentation make no fence: such a line neither opens one nor
      closes one. */
  lemma IndentedLineIsNoFence(line: string, marker: char, minimum: nat)
    requires |line| >= 4 && line[..4] == "    " && marker != ' ' && minimum >= 1
    ensures OpeningFence(line).None? && !IsClosing(line, marker, minimum)
  {
    assert forall i :: 0 <= i < 4 ==> line[i] == line[..4][i] == ' ';
    assert Run(line, ' ') >= 4;
    assert Unindented(line)[0] == line[3];
  }

  // ---- The round trip ----

  lemma {:induction false} ProseIsSkipped(prose: seq<Prose>, rest: seq<string>, line: nat, accepts: string -> bool)
    requires forall i :: 0 <= i < |prose| ==> IsProse(prose[i])
    ensures Scan(ProseLines(prose) + rest, line, accepts) == Scan(rest, line + |ProseLines(prose)|, accepts)
  {
    hide IsProse, LinesOf, Scan;
    if prose == [] {
      assert ProseLines(prose) + rest == rest;
    } else {
      var first := LinesOf(prose[0]);
      assert ProseLines(prose) + rest == first + (ProseLines(prose[1..]) + rest);
      OneIsSkipped(prose[0], ProseLines(prose[1..]) + rest, line, accepts);
      ProseIsSkipped(prose[1..], rest, line + |first|, accepts);
    }
  }

  lemma OneIsSkipped(p: Prose, later: seq<string>, line: nat, accepts: string -> bool)
    requires IsProse(p)
    ensures Scan(LinesOf(p) + later, line, accepts) == Scan(later, line + |LinesOf(p)|, accepts)
  {
    hide OpeningFence, FixtureTag, Closes, FenceEnd, TaggedStep;
    var lines := LinesOf(p) + later;
    match p
    case Line(_) =>
      assert lines[1..] == later;
    case Example(open, body, close) =>
      FencedStep(open, body, close, later, accepts);
      assert lines[|body|+2..] == later;
  }

  lemma BlanksAre(blanks: seq<string>, next: string, rest: seq<string>)
    requires (forall i :: 0 <= i < |blanks| ==> AllSpace(blanks[i])) && !AllSpace(next)
    ensures Blanks(blanks + [next] + rest) == |blanks|
  {
    hide AllSpace;
    var lines := blanks + [next] + rest;
    assert lines[|blanks|] == next;
    var n := Blanks(lines);
    assert forall i :: 0 <= i < |blanks| ==> lines[i] == blanks[i];
  }

  lemma FixtureIsRead(b: Block, rest: seq<string>, accepts: string -> bool)
    requires Printable(b) && accepts(Join(b.json, "\n"))
    ensures TaggedStep(PrintFixture(b) + rest, b.name, accepts) == Found(b.name, Join(b.json, "\n"), |PrintFixture(b)|)
  {
    hide *;
    OpenLineOfBlock(b);
    FixtureLines(b, rest);
    BlanksBefore(b, rest);
    InsideEnds(b, rest);
    TaggedStepIs(PrintFixture(b) + rest, b.name, |b.blanks|, Fence(b.fence.marker, FenceLength(b.fence), b.fence.info), b.json, accepts);
  }

  lemma OpenLineOfBlock(b: Block)
    requires Printable(b)
    ensures OpeningFence(OpenLine(b.fence)) == Some(Fence(b.fence.marker, FenceLength(b.fence), b.fence.info))
    ensures IsJsonInfo(b.fence.info)
  {
    hide OpenLine, OpeningFence, FenceLength, IsJsonInfo;
    OpenLineOpens(b.fence);
    FenceInfo(b.fence);
  }

  lemma BlanksBefore(b: Block, rest: seq<string>)
    requires Printable(b)
    ensures Blanks((PrintFixture(b) + rest)[1..]) == |b.blanks|
  {
    OpenLineOpens(b.fence);
    FixtureLines(b, rest);
    hide PrintFixture, OpenLine, CloseLine, OpeningFence, FenceLength, AllSpace, Blanks, IsProse, GoodFence;
    BlanksAre(b.blanks, OpenLine(b.fence), b.json + [CloseLine(b.fence)] + rest);
  }

  lemma TaggedStepIs(lines: seq<string>, name: string, n: nat, fence: Fence, json: seq<string>, accepts: string -> bool)
    requires n + 2 + |json| < |lines| && Blanks(lines[1..]) == n
    requires OpeningFence(lines[n+1]) == Some(fence) && IsJsonInfo(fence.info)
    requires FenceEnd(lines[n+2..], fence.marker, fence.length) == Some(|json|)
    requires lines[n+2..n+2+|json|] == json && accepts(Join(json, "\n"))
    ensures TaggedStep(lines, name, accepts) == Found(name, Join(json, "\n"), n + |json| + 3)
  {
    hide OpeningFence, IsJsonInfo, FenceEnd, Join, Blanks;
  }

  lemma InsideEnds(b: Block, rest: seq<string>)
    requires Printable(b)
    ensures |b.blanks| + 2 <= |PrintFixture(b) + rest|
    ensures FenceEnd((PrintFixture(b) + rest)[|b.blanks|+2..], b.fence.marker, FenceLength(b.fence)) == Some(|b.json|)
  {
    CloseLineCloses(b.fence);
    FixtureLines(b, rest);
    hide PrintFixture, CloseLine, FenceLength, IsClosing, FenceEnd;
    FenceEndIs(b.json + [CloseLine(b.fence)] + rest, b.fence.marker, FenceLength(b.fence), |b.json|);
  }

  lemma FenceInfo(f: FenceStyle)
    requires GoodFence(f)
    ensures IsJsonInfo(f.info)
  {
  }

  lemma FixtureLines(b: Block, rest: seq<string>)
    ensures var lines, n := PrintFixture(b) + rest, |b.blanks|;
            var inside := b.json + [CloseLine(b.fence)] + rest;
            |PrintFixture(b)| == n + |b.json| + 3 && lines[0] == TagLine(b.tag, b.name)
            && lines[1..] == b.blanks + [OpenLine(b.fence)] + inside
            && lines[n+1] == OpenLine(b.fence) && lines[n+2..] == inside && lines[n+2..n+2+|b.json|] == b.json
  {
    hide TagLine, OpenLine, CloseLine;
  }

  lemma FixtureIsFound(b: Block, rest: seq<string>, accepts: string -> bool)
    requires Printable(b) && accepts(Join(b.json, "\n"))
    ensures StepOn(PrintFixture(b) + rest, accepts) == Found(b.name, Join(b.json, "\n"), |PrintFixture(b)|)
  {
    TagLineIsTag(b.tag, b.name);
    TagLineIsNoFence(b.tag, b.name);
    hide TagLine, OpenLine, CloseLine, OpeningFence, FixtureTag, TaggedStep, Join;
    FixtureLines(b, rest);
    FixtureIsRead(b, rest, accepts);
  }

  /** Extracting printed blocks gives back every name and JSON text, in order,
      with the line of every tag. Any lines may stand inside a fixture that do not
      close its fence, and any fenced examples between the fixtures. */
  lemma {:induction false} PrintedIsExtracted(blocks: seq<Block>, closing: seq<Prose>, line: nat, accepts: string -> bool)
    requires forall i :: 0 <= i < |blocks| ==> Printable(blocks[i]) && accepts(Join(blocks[i].json, "\n"))
    requires forall i :: 0 <= i < |closing| ==> IsProse(closing[i])
    ensures Scan(PrintBlocks(blocks) + ProseLines(closing), line, accepts) == Ok(Expected(blocks, line))
    decreases blocks
  {
    hide StepOn, PrintFixture, IsProse, ProseLines, Join;
    if blocks == [] {
      assert PrintBlocks(blocks) + ProseLines(closing) == ProseLines(closing) + [];
      ProseIsSkipped(closing, [], line, accepts);
    } else {
      var b, rest := blocks[0], PrintBlocks(blocks[1..]) + ProseLines(closing);
      var fixture, tagAt := PrintFixture(b), line + |ProseLines(b.prose)|;
      assert PrintBlocks(blocks) + ProseLines(closing) == ProseLines(b.prose) + (fixture + rest);
      ProseIsSkipped(b.prose, fixture + rest, line, accepts);
      FixtureIsFound(b, rest, accepts);
      assert (fixture + rest)[|fixture|..] == rest;
      PrintedIsExtracted(blocks[1..], closing, tagAt + |fixture|, accepts);
    }
  }
}
