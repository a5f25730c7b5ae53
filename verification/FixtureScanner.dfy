/** The Markdown scanner of the contract gate: fenced code blocks after section
    4.5 of CommonMark 0.31.2, except that an unclosed fence is an error, and
    tagged JSON fixtures outside of them. A document is its list of lines. */
module FixtureScanner {
  import opened Results
  import opened Text

  // ---- Lines ----

  datatype Fence = Fence(marker: char, length: nat, info: string)

  function Run(s: string, c: char): (n: nat)
    ensures n <= |s|
    ensures forall i :: 0 <= i < n ==> s[i] == c
    ensures n < |s| ==> s[n] != c
  {
    if s == [] || s[0] != c then 0 else 1 + Run(s[1..], c)
  }

  /** The line behind at most three spaces of indentation. */
  function Unindented(line: string): string {
    line[if Run(line, ' ') <= 3 then Run(line, ' ') else 3..]
  }

  function OpeningFence(line: string): (r: Option<Fence>)
    ensures r.Some? ==> r.value.marker in {'`', '~'} && r.value.length >= 3
  {
    var rest := Unindented(line);
    if rest == [] || rest[0] !in {'`', '~'} then None
    else
      var n := Run(rest, rest[0]);
      var info := Strip(rest[n..]);
      if n < 3 || '\r' in rest[n..] || '\n' in rest[n..] then None
      else if rest[0] == '`' && '`' in info then None
      else Some(Fence(rest[0], n, info))
  }

  predicate IsClosing(line: string, marker: char, minimum: nat) {
    var rest := Unindented(line);
    Run(rest, marker) >= minimum && AllSpace(rest[Run(rest, marker)..])
  }

  predicate IsNameStart(c: char) { 'A' <= c <= 'Z' || 'a' <= c <= 'z' || c == '_' }

  predicate IsNameChar(c: char) { IsNameStart(c) || '0' <= c <= '9' }

  function NameRun(s: string): (n: nat)
    ensures n <= |s|
    ensures forall i :: 0 <= i < n ==> IsNameChar(s[i])
    ensures n < |s| ==> !IsNameChar(s[n])
  {
    if s == [] || !IsNameChar(s[0]) then 0 else 1 + NameRun(s[1..])
  }

  const OPEN_COMMENT := "<!--"
  const KEYWORD := "contract-fixture:"
  const CLOSE_COMMENT := "-->"

  /** The schema name of a fixture tag line. */
  function FixtureTag(line: string): Option<string> {
    var a := SkipSpace(line);
    if !(OPEN_COMMENT <= a) then None
    else
      var b := SkipSpace(a[|OPEN_COMMENT|..]);
      if !(KEYWORD <= b) then None
      else
        var c := SkipSpace(b[|KEYWORD|..]);
        var n := NameRun(c);
        if n == 0 || !IsNameStart(c[0]) then None
        else
          var d := SkipSpace(c[n..]);
          if CLOSE_COMMENT <= d && AllSpace(d[|CLOSE_COMMENT|..]) then Some(c[..n]) else None
  }

  /** `info.casefold() == "json"`; the long s is the only letter beyond ASCII
      that folds to one of these four. */
  predicate IsJsonInfo(info: string) {
    |info| == 4 && info[0] in {'j', 'J'} && info[1] in {'s', 'S', '\U{17F}'}
    && info[2] in {'o', 'O'} && info[3] in {'n', 'N'}
  }

  // ---- One step of the scan, on the lines still to come ----

  function FenceEnd(lines: seq<string>, marker: char, minimum: nat): (r: Option<nat>)
    ensures r.Some? ==> r.value < |lines|
  {
    if lines == [] then None
    else if IsClosing(lines[0], marker, minimum) then Some(0)
    else
      match FenceEnd(lines[1..], marker, minimum)
      case Some(e) => Some(e + 1)
      case None => None
  }

  function Blanks(lines: seq<string>): (n: nat)
    ensures n <= |lines|
    ensures forall i :: 0 <= i < n ==> AllSpace(lines[i])
    ensures n < |lines| ==> !AllSpace(lines[n])
  {
    if lines == [] || !AllSpace(lines[0]) then 0 else 1 + Blanks(lines[1..])
  }

  datatype Problem = UnclosedFence | TagWithoutJsonFence | InvalidJson

  datatype Step =
    | Move(consumed: nat)
    | Found(name: string, raw: string, consumed: nat)
    | Stop(problem: Problem, at: nat)

  /** `accepts` stands for the strict JSON object parser. */
  function TaggedStep(rest: seq<string>, name: string, accepts: string -> bool): (r: Step)
    requires rest != []
    ensures r.Found? ==> 1 <= r.consumed <= |rest|
    ensures !r.Move?
  {
    var b := 1 + Blanks(rest[1..]);
    var fence := if b < |rest| then OpeningFence(rest[b]) else None;
    if fence.None? || !IsJsonInfo(fence.value.info) then Stop(TagWithoutJsonFence, 0)
    else
      match FenceEnd(rest[b+1..], fence.value.marker, fence.value.length)
      case None => Stop(UnclosedFence, b)
      case Some(e) =>
        var raw := Join(rest[b+1..b+1+e], "\n");
        if accepts(raw) then Found(name, raw, b + e + 2) else Stop(InvalidJson, 0)
  }

  function StepOn(rest: seq<string>, accepts: string -> bool): (r: Step)
    requires rest != []
    ensures !r.Stop? ==> 1 <= r.consumed <= |rest|
  {
    match OpeningFence(rest[0])
    case Some(fence) =>
      (match FenceEnd(rest[1..], fence.marker, fence.length)
       case Some(e) => Move(e + 2)
       case None => Stop(UnclosedFence, 0))
    case None =>
      (match FixtureTag(rest[0])
       case None => Move(1)
       case Some(name) => TaggedStep(rest, name, accepts))
  }

  // ---- The scan ----

  datatype Fixture = Fixture(tagLine: nat, name: string, raw: string)

  datatype ScanError = ScanError(problem: Problem, line: nat)

  type Scanned = Result<seq<Fixture>, ScanError>

  function Scan(rest: seq<string>, line: nat, accepts: string -> bool): Scanned
    decreases |rest|
  {
    if rest == [] then Ok([])
    else
      match StepOn(rest, accepts)
      case Move(n) => Scan(rest[n..], line + n, accepts)
      case Found(name, raw, n) => Prepend([Fixture(line + 1, name, raw)], Scan(rest[n..], line + n, accepts))
      case Stop(problem, at) => Err(ScanError(problem, line + at + 1))
  }

  function Extract(lines: seq<string>, accepts: string -> bool): Scanned { Scan(lines, 0, accepts) }

  // ---- The loops ----

  method FindFenceEnd(lines: seq<string>, start: nat, marker: char, minimum: nat) returns (r: Option<nat>)
    requires start < |lines|
    ensures r == match FenceEnd(lines[start+1..], marker, minimum) case Some(e) => Some(start + 1 + e) case None => None
  {
    hide IsClosing;
    ghost var target := FenceEnd(lines[start+1..], marker, minimum);
    for index := start + 1 to |lines|
      invariant target == match FenceEnd(lines[index..], marker, minimum)
                          case Some(e) => Some(index - start - 1 + e) case None => None
    {
      assert lines[index..][0] == lines[index] && lines[index..][1..] == lines[index+1..];
      if IsClosing(lines[index], marker, minimum) {
        return Some(index);
      }
    }
    return None;
  }

  method SkipBlanks(lines: seq<string>, start: nat) returns (b: nat)
    requires start < |lines|
    ensures b == start + 1 + Blanks(lines[start+1..])
  {
    b := start + 1;
    while b < |lines| && AllSpace(lines[b])
      invariant start + 1 <= b <= |lines|
      invariant b + Blanks(lines[b..]) == start + 1 + Blanks(lines[start+1..])
    {
      assert lines[b..][0] == lines[b] && lines[b..][1..] == lines[b+1..];
      b := b + 1;
    }
  }

  /** The extractor as it is written: one index that jumps over whole blocks. */
  method ExtractMarkdownContractFixtures(lines: seq<string>, accepts: string -> bool) returns (r: Scanned)
    ensures r == Extract(lines, accepts)
  {
    hide OpeningFence, FixtureTag, FenceEnd, TaggedStep, Prepend;
    var fixtures: seq<Fixture> := [];
    var index := 0;
    assert lines[0..] == lines;
    PrependNothing([], Extract(lines, accepts));
    while index < |lines|
      invariant index <= |lines|
      invariant Extract(lines, accepts) == Prepend(fixtures, Scan(lines[index..], index, accepts))
      decreases |lines| - index
    {
      ghost var rest := lines[index..];
      var fence := OpeningFence(lines[index]);
      if fence.Some? {
        assert rest[1..] == lines[index+1..];
        var end := FindFenceEnd(lines, index, fence.value.marker, fence.value.length);
        if end.None? {
          PrependError(fixtures, ScanError(UnclosedFence, index + 1));
          return Err(ScanError(UnclosedFence, index + 1));
        }
        assert rest[end.value + 1 - index..] == lines[end.value+1..];
        index := end.value + 1;
        continue;
      }
      var tag := FixtureTag(lines[index]);
      if tag.None? {
        assert rest[1..] == lines[index+1..];
        index := index + 1;
        continue;
      }
      var found := ReadFixture(lines, index, tag.value, accepts);
      match found
      case Stop(problem, at) =>
        PrependError(fixtures, ScanError(problem, index + at + 1));
        return Err(ScanError(problem, index + at + 1));
      case Found(name, raw, n) =>
        assert rest[n..] == lines[index+n..];
        PrependTwice(fixtures, [Fixture(index + 1, name, raw)], Scan(lines[index+n..], index + n, accepts));
        fixtures := fixtures + [Fixture(index + 1, name, raw)];
        index := index + n;
    }
    PrependNothing(fixtures, Extract([], accepts));
    return Ok(fixtures);
  }

  /** The part of the loop body that handles a tag. */
  method ReadFixture(lines: seq<string>, index: nat, name: string, accepts: string -> bool) returns (r: Step)
    requires index < |lines|
    ensures r == TaggedStep(lines[index..], name, accepts)
  {
    hide OpeningFence, FenceEnd, IsJsonInfo, Join, Blanks;
    ghost var rest := lines[index..];
    assert rest[1..] == lines[index+1..];
    var start := SkipBlanks(lines, index);
    var fence := if start < |lines| then OpeningFence(lines[start]) else None;
    if fence.None? || !IsJsonInfo(fence.value.info) {
      return Stop(TagWithoutJsonFence, 0);
    }
    assert rest[start - index + 1..] == lines[start+1..];
    var end := FindFenceEnd(lines, start, fence.value.marker, fence.value.length);
    if end.None? {
      return Stop(UnclosedFence, start - index);
    }
    var raw := Join(lines[start+1..end.value], "\n");
    assert rest[start - index + 1..end.value - index] == lines[start+1..end.value];
    if !accepts(raw) {
      return Stop(InvalidJson, 0);
    }
    return Found(name, raw, end.value + 1 - index);
  }
}
