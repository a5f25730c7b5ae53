/** What the fixture scanner promises: it sees exactly the tags outside fenced
    blocks, fenced text cannot influence it, and it reads back what is printed. */
module FixtureProperties {
  import opened Results
  import opened Text
  import opened FixtureScanner

  // ---- A step looks no further than the lines it consumes ----

  lemma {:induction false} FenceEndSpec(lines: seq<string>, marker: char, minimum: nat)
    ensures var r := FenceEnd(lines, marker, minimum);
            var last := if r.Some? then r.value else |lines|;
            (r.Some? ==> IsClosing(lines[last], marker, minimum))
            && forall k :: 0 <= k < last ==> !IsClosing(lines[k], marker, minimum)
  {
    if lines != [] && !IsClosing(lines[0], marker, minimum) {
      FenceEndSpec(lines[1..], marker, minimum);
      assert forall k :: 0 < k < |lines| ==> lines[k] == lines[1..][k-1];
    }
  }

  lemma FenceEndIs(lines: seq<string>, marker: char, minimum: nat, e: nat)
    requires e < |lines| && IsClosing(lines[e], marker, minimum)
    requires forall k :: 0 <= k < e ==> !IsClosing(lines[k], marker, minimum)
    ensures FenceEnd(lines, marker, minimum) == Some(e)
  {
    FenceEndSpec(lines, marker, minimum);
  }

  /** The end of a fence found inside a prefix does not depend on what follows. */
  lemma FenceEndIsLocal(lines: seq<string>, other: seq<string>, marker: char, minimum: nat, n: nat)
    requires n <= |lines| && n <= |other| && lines[..n] == other[..n]
    requires FenceEnd(lines, marker, minimum).Some? && FenceEnd(lines, marker, minimum).value < n
    ensures FenceEnd(other, marker, minimum) == FenceEnd(lines, marker, minimum)
  {
    hide IsClosing;
    FenceEndSpec(lines, marker, minimum);
    var e := FenceEnd(lines, marker, minimum).value;
    assert forall k :: 0 <= k < n ==> other[k] == other[..n][k] == lines[..n][k] == lines[k];
    FenceEndIs(other, marker, minimum, e);
  }

  lemma SliceAgrees(lines: seq<string>, other: seq<string>, n: nat, i: nat)
    requires i <= n <= |lines| && n <= |other| && lines[..n] == other[..n]
    ensures lines[i..][..n-i] == other[i..][..n-i]
    ensures i < n ==> lines[i] == other[i]
  {
    assert lines[i..][..n-i] == lines[..n][i..] && other[i..][..n-i] == other[..n][i..];
    assert i < n ==> lines[..n][i] == lines[i] && other[..n][i] == other[i];
  }

  lemma TaggedStepIsLocal(lines: seq<string>, other: seq<string>, name: string, accepts: string -> bool)
    requires lines != [] && TaggedStep(lines, name, accepts).Found?
    requires var n := TaggedStep(lines, name, accepts).consumed; n <= |other| && lines[..n] == other[..n]
    ensures TaggedStep(other, name, accepts) == TaggedStep(lines, name, accepts)
  {
    hide OpeningFence, IsJsonInfo, FenceEnd, Join, AllSpace;
    var n := TaggedStep(lines, name, accepts).consumed;
    var b := 1 + Blanks(lines[1..]);
    forall k | 0 <= k < n ensures lines[k] == other[k] {
      SliceAgrees(lines, other, n, k);
    }
    BlanksIsLocal(lines[1..], other[1..], Blanks(lines[1..]));
    var fence := OpeningFence(lines[b]).value;
    SliceAgrees(lines, other, n, b + 1);
    FenceEndIsLocal(lines[b+1..], other[b+1..], fence.marker, fence.length, n - b - 1);
    assert lines[b+1..n-1] == other[b+1..n-1];
  }

  lemma BlanksIsLocal(lines: seq<string>, other: seq<string>, n: nat)
    requires n == Blanks(lines) < |lines| && n < |other| && forall k :: 0 <= k <= n ==> lines[k] == other[k]
    ensures Blanks(other) == n
  {
    hide AllSpace, Blanks;
    assert forall k :: 0 <= k < n ==> AllSpace(other[k]);
  }

  lemma StepIsLocal(lines: seq<string>, other: seq<string>, accepts: string -> bool)
    requires lines != [] && !StepOn(lines, accepts).Stop?
    requires var n := StepOn(lines, accepts).consumed; n <= |other| && lines[..n] == other[..n]
    ensures StepOn(other, accepts) == StepOn(lines, accepts)
  {
    hide OpeningFence, FixtureTag, FenceEnd, TaggedStep;
    var n := StepOn(lines, accepts).consumed;
    SliceAgrees(lines, other, n, 0);
    var fence := OpeningFence(lines[0]);
    if fence.Some? {
      SliceAgrees(lines, other, n, 1);
      FenceEndIsLocal(lines[1..], other[1..], fence.value.marker, fence.value.length, n - 1);
    } else if FixtureTag(lines[0]).Some? {
      TaggedStepIsLocal(lines, other, FixtureTag(lines[0]).value, accepts);
    }
  }

  // ---- The positions the scan visits outside blocks ----

  /** How many lines the next step takes; none if it raises. */
  function Consumed(rest: seq<string>, accepts: string -> bool): (n: nat)
    ensures n <= |rest|
  {
    if rest == [] || StepOn(rest, accepts).Stop? then 0 else StepOn(rest, accepts).consumed
  }

  function FoundBy(rest: seq<string>, line: nat, accepts: string -> bool): seq<Fixture> {
    if rest == [] then []
    else
      match StepOn(rest, accepts)
      case Found(name, raw, _) => [Fixture(line + 1, name, raw)]
      case _ => []
  }

  /** The scan stands, outside every block, at line `k` of `rest`. */
  predicate Reaches(rest: seq<string>, k: nat, accepts: string -> bool)
    requires k <= |rest|
    decreases k
  {
    k == 0 || (0 < Consumed(rest, accepts) <= k && Reaches(rest[Consumed(rest, accepts)..], k - Consumed(rest, accepts), accepts))
  }

  /** The fixtures found before line `k`. */
  function Before(rest: seq<string>, k: nat, line: nat, accepts: string -> bool): seq<Fixture>
    requires k <= |rest| && Reaches(rest, k, accepts)
    decreases k
  {
    if k == 0 then []
    else
      FoundBy(rest, line, accepts) + Before(rest[Consumed(rest, accepts)..], k - Consumed(rest, accepts), line + Consumed(rest, accepts), accepts)
  }

  lemma ScanStep(rest: seq<string>, line: nat, accepts: string -> bool)
    requires 0 < Consumed(rest, accepts)
    ensures var n := Consumed(rest, accepts);
            Scan(rest, line, accepts) == Prepend(FoundBy(rest, line, accepts), Scan(rest[n..], line + n, accepts))
  {
    hide StepOn;
    PrependNothing([], Scan(rest, line, accepts));
  }

  /** A scan is what was found before a reached line and the scan from there. */
  lemma {:induction false} ScanSplits(rest: seq<string>, k: nat, line: nat, accepts: string -> bool)
    requires k <= |rest| && Reaches(rest, k, accepts)
    ensures Scan(rest, line, accepts) == Prepend(Before(rest, k, line, accepts), Scan(rest[k..], line + k, accepts))
    decreases k
  {
    hide Consumed, FoundBy, Scan, Prepend;
    if k == 0 {
      assert rest[0..] == rest;
      PrependNothing([], Scan(rest, line, accepts));
    } else {
      var n := Consumed(rest, accepts);
      ScanStep(rest, line, accepts);
      ScanSplits(rest[n..], k - n, line + n, accepts);
      assert rest[n..][k-n..] == rest[k..];
      PrependTwice(FoundBy(rest, line, accepts), Before(rest[n..], k - n, line + n, accepts), Scan(rest[k..], line + k, accepts));
    }
  }

  lemma ConsumedIsLocal(rest: seq<string>, other: seq<string>, line: nat, accepts: string -> bool)
    requires var n := Consumed(rest, accepts); 0 < n <= |other| && rest[..n] == other[..n]
    ensures Consumed(other, accepts) == Consumed(rest, accepts) && FoundBy(other, line, accepts) == FoundBy(rest, line, accepts)
  {
    hide StepOn;
    StepIsLocal(rest, other, accepts);
  }

  lemma {:induction false} ReachesIsLocal(rest: seq<string>, other: seq<string>, k: nat, line: nat, accepts: string -> bool)
    requires k <= |rest| && k <= |other| && rest[..k] == other[..k] && Reaches(rest, k, accepts)
    ensures Reaches(other, k, accepts) && Before(other, k, line, accepts) == Before(rest, k, line, accepts)
    decreases k
  {
    hide Consumed, FoundBy;
    if k > 0 {
      var n := Consumed(rest, accepts);
      assert rest[..n] == rest[..k][..n] && other[..n] == other[..k][..n];
      ConsumedIsLocal(rest, other, line, accepts);
      SliceAgrees(rest, other, k, n);
      ReachesIsLocal(rest[n..], other[n..], k - n, line + n, accepts);
    }
  }

  // ---- Line numbers aside ----

  type Contents = Result<seq<(string, string)>, Problem>

  function Names(fixtures: seq<Fixture>): (r: seq<(string, string)>)
    ensures |r| == |fixtures|
  {
    seq(|fixtures|, i requires 0 <= i < |fixtures| => (fixtures[i].name, fixtures[i].raw))
  }

  /** The extracted schema names and JSON texts, or the kind of error. */
  function ContentsOf(scanned: Scanned): Contents {
    match scanned
    case Ok(fixtures) => Ok(Names(fixtures))
    case Err(e) => Err(e.problem)
  }

  lemma ContentsPrepend(found: seq<Fixture>, other: seq<Fixture>, a: Scanned, b: Scanned)
    requires Names(found) == Names(other) && ContentsOf(a) == ContentsOf(b)
    ensures ContentsOf(Prepend(found, a)) == ContentsOf(Prepend(other, b))
  {
    if a.Ok? {
      assert Names(found + a.value) == Names(found) + Names(a.value);
      assert Names(other + b.value) == Names(other) + Names(b.value);
    }
  }

  lemma {:induction false} ContentsForgetLines(rest: seq<string>, line: nat, other: nat, accepts: string -> bool)
    ensures ContentsOf(Scan(rest, line, accepts)) == ContentsOf(Scan(rest, other, accepts))
    decreases |rest|
  {
    hide StepOn;
    if rest != [] {
      var step := StepOn(rest, accepts);
      if !step.Stop? {
        var n := step.consumed;
        ContentsForgetLines(rest[n..], line + n, other + n, accepts);
        if step.Found? {
          ContentsPrepend([Fixture(line + 1, step.name, step.raw)], [Fixture(other + 1, step.name, step.raw)],
                          Scan(rest[n..], line + n, accepts), Scan(rest[n..], other + n, accepts));
        }
      }
    }
  }

  // ---- Fenced text cannot influence the scan ----

  function Fenced(before: seq<string>, open: string, body: seq<string>, close: string, after: seq<string>): seq<string> {
    before + [open] + body + [close] + after
  }

  predicate Closes(open: string, body: seq<string>, close: string) {
    var fence := OpeningFence(open);
    fence.Some? && IsClosing(close, fence.value.marker, fence.value.length)
    && forall k :: 0 <= k < |body| ==> !IsClosing(body[k], fence.value.marker, fence.value.length)
  }

  lemma FencedStep(open: string, body: seq<string>, close: string, after: seq<string>, accepts: string -> bool)
    requires Closes(open, body, close)
    ensures StepOn([open] + body + [close] + after, accepts) == Move(|body| + 2)
  {
    hide OpeningFence, IsClosing;
    var lines := [open] + body + [close] + after;
    var fence := OpeningFence(open).value;
    assert lines[1..] == body + [close] + after;
    FenceEndIs(lines[1..], fence.marker, fence.length, |body|);
  }

  lemma ScanFenced(before: seq<string>, open: string, body: seq<string>, close: string, after: seq<string>, accepts: string -> bool)
    requires Closes(open, body, close) && Reaches(Fenced(before, open, body, close, after), |before|, accepts)
    ensures var doc := Fenced(before, open, body, close, after);
            Extract(doc, accepts) ==
              Prepend(Before(doc, |before|, 0, accepts), Scan(after, |before| + |body| + 2, accepts))
  {
    hide StepOn, Closes, Reaches, Before;
    var doc := Fenced(before, open, body, close, after);
    ScanSplits(doc, |before|, 0, accepts);
    var rest := [open] + body + [close] + after;
    assert doc[|before|..] == rest;
    FencedStep(open, body, close, after, accepts);
    assert rest[|body|+2..] == after;
  }

  /** Whatever stands inside an untagged closed fence, tags and JSON fences of
      the other marker included, the extraction is the same; with the same
      number of lines even the reported line numbers are. */
  lemma FencedTextIsIgnored(before: seq<string>, open: string, body: seq<string>, other: seq<string>, close: string,
                            after: seq<string>, accepts: string -> bool)
    requires Closes(open, body, close) && Closes(open, other, close)
    requires Reaches(Fenced(before, open, body, close, after), |before|, accepts)
    ensures ContentsOf(Extract(Fenced(before, open, body, close, after), accepts))
         == ContentsOf(Extract(Fenced(before, open, other, close, after), accepts))
    ensures |body| == |other| ==>
              Extract(Fenced(before, open, body, close, after), accepts) == Extract(Fenced(before, open, other, close, after), accepts)
  {
    hide StepOn, Closes, Reaches, Before, Scan, Prepend, ContentsOf;
    var a, b := Fenced(before, open, body, close, after), Fenced(before, open, other, close, after);
    assert a[..|before|] == before == b[..|before|];
    ReachesIsLocal(a, b, |before|, 0, accepts);
    ScanFenced(before, open, body, close, after, accepts);
    ScanFenced(before, open, other, close, after, accepts);
    var m, n := |before| + |body| + 2, |before| + |other| + 2;
    ContentsForgetLines(after, m, n, accepts);
    ContentsPrepend(Before(a, |before|, 0, accepts), Before(b, |before|, 0, accepts), Scan(after, m, accepts), Scan(after, n, accepts));
  }

  // ---- Exactly the tags outside blocks ----

  /** The scan stands at line `t` and reads a tagged block of `n` lines there. */
  predicate TagAt(lines: seq<string>, t: nat, name: string, raw: string, n: nat, accepts: string -> bool) {
    t < |lines| && Reaches(lines, t, accepts) && StepOn(lines[t..], accepts) == Found(name, raw, n)
  }

  /** A successful scan reports every tag outside blocks and nothing else. */
  lemma {:induction false} ScanIsExact(rest: seq<string>, line: nat, accepts: string -> bool)
    requires Scan(rest, line, accepts).Ok?
    ensures forall f :: f in Scan(rest, line, accepts).value <==>
              exists t: nat, n: nat :: TagAt(rest, t, f.name, f.raw, n, accepts) && f.tagLine == line + t + 1
    decreases |rest|
  {
    hide StepOn;
    if rest != [] {
      var step := StepOn(rest, accepts);
      var n := step.consumed;
      var tail := rest[n..];
      ScanIsExact(tail, line + n, accepts);
      var all, later := Scan(rest, line, accepts).value, Scan(tail, line + n, accepts).value;
      assert rest[0..] == rest;
      forall f
        ensures f in all <==> exists t: nat, m: nat :: TagAt(rest, t, f.name, f.raw, m, accepts) && f.tagLine == line + t + 1
      {
        assert f in all <==> (step.Found? && f == Fixture(line + 1, step.name, step.raw)) || f in later;
        if f in later {
          var t: nat, m: nat :| TagAt(tail, t, f.name, f.raw, m, accepts) && f.tagLine == line + n + t + 1;
          assert rest[n+t..] == tail[t..];
          assert TagAt(rest, n + t, f.name, f.raw, m, accepts);
        } else if f in all {
          assert TagAt(rest, 0, f.name, f.raw, n, accepts);
        }
        if t: nat, m: nat :| TagAt(rest, t, f.name, f.raw, m, accepts) && f.tagLine == line + t + 1 {
          if t > 0 {
            assert rest[t..] == tail[t-n..];
            assert TagAt(tail, t - n, f.name, f.raw, m, accepts);
          }
        }
      }
    }
  }

  /** Reported tag lines increase, and no block reaches into a later one. */
  lemma {:induction false} TagLinesIncrease(rest: seq<string>, line: nat, accepts: string -> bool)
    requires Scan(rest, line, accepts).Ok?
    ensures var fs := Scan(rest, line, accepts).value;
            (forall i :: 0 <= i < |fs| ==> line < fs[i].tagLine <= line + |rest|)
            && forall i, j :: 0 <= i < j < |fs| ==> fs[i].tagLine < fs[j].tagLine
    decreases |rest|
  {
    hide StepOn;
    if rest != [] {
      var n := StepOn(rest, accepts).consumed;
      TagLinesIncrease(rest[n..], line + n, accepts);
    }
  }

  lemma {:induction false} BlocksAreDisjoint(lines: seq<string>, s: nat, t: nat, accepts: string -> bool)
    requires s < t <= |lines| && Reaches(lines, s, accepts) && Reaches(lines, t, accepts)
    ensures !StepOn(lines[s..], accepts).Stop? && s + StepOn(lines[s..], accepts).consumed <= t
    decreases s
  {
    hide StepOn;
    if s == 0 {
      assert lines[0..] == lines;
    } else {
      var n := StepOn(lines, accepts).consumed;
      assert lines[n..][s-n..] == lines[s..];
      BlocksAreDisjoint(lines[n..], s - n, t - n, accepts);
    }
  }

  // ---- Exactly when and how a scan fails ----

  /** The scan stands, outside every block, at line `t` and raises there. */
  predicate StopsAt(rest: seq<string>, t: nat, problem: Problem, at: nat, accepts: string -> bool) {
    t < |rest| && Reaches(rest, t, accepts) && StepOn(rest[t..], accepts) == Stop(problem, at)
  }

  /** A scan fails exactly when a step at a line it reaches raises, and the error
      names the problem and the line of that step. */
  lemma {:induction false} FailureIsExact(rest: seq<string>, line: nat, accepts: string -> bool, e: ScanError)
    ensures Scan(rest, line, accepts) == Err(e) <==>
              exists t: nat, at: nat :: StopsAt(rest, t, e.problem, at, accepts) && e.line == line + t + at + 1
    decreases |rest|
  {
    hide StepOn;
    if rest != [] {
      assert rest[0..] == rest;
      var step := StepOn(rest, accepts);
      if step.Stop? {
        if Scan(rest, line, accepts) == Err(e) {
          assert StopsAt(rest, 0, e.problem, step.at, accepts);
        }
      } else {
        var n := step.consumed;
        FailureIsExact(rest[n..], line + n, accepts, e);
        if t: nat, at: nat :| StopsAt(rest[n..], t, e.problem, at, accepts) && e.line == line + n + t + at + 1 {
          assert rest[n+t..] == rest[n..][t..];
          assert StopsAt(rest, n + t, e.problem, at, accepts);
        }
        if t: nat, at: nat :| StopsAt(rest, t, e.problem, at, accepts) && e.line == line + t + at + 1 {
          assert rest[t..] == rest[n..][t-n..];
          assert StopsAt(rest[n..], t - n, e.problem, at, accepts);
        }
      }
    }
  }

  /** No later line closes the fence that line `k` opens. */
  predicate NeverClosed(lines: seq<string>, k: nat) {
    k < |lines| && OpeningFence(lines[k]).Some?
    && forall i :: k < i < |lines| ==>
         !IsClosing(lines[i], OpeningFence(lines[k]).value.marker, OpeningFence(lines[k]).value.length)
  }

  /** Line `k` is the JSON fence of the tag on line `t`: only blank lines stand
      between them. */
  predicate FenceOfTag(lines: seq<string>, t: nat, k: nat) {
    t < k < |lines| && OpeningFence(lines[t]).None? && FixtureTag(lines[t]).Some?
    && (forall i :: t < i < k ==> AllSpace(lines[i])) && !AllSpace(lines[k])
    && OpeningFence(lines[k]).Some? && IsJsonInfo(OpeningFence(lines[k]).value.info)
  }

  lemma FenceEndNone(lines: seq<string>, marker: char, minimum: nat)
    ensures FenceEnd(lines, marker, minimum).None? <==> forall k :: 0 <= k < |lines| ==> !IsClosing(lines[k], marker, minimum)
  {
    hide IsClosing;
    FenceEndSpec(lines, marker, minimum);
  }

  lemma NeverClosedMeans(lines: seq<string>, k: nat)
    requires k < |lines| && OpeningFence(lines[k]).Some?
    ensures var fence := OpeningFence(lines[k]).value;
            NeverClosed(lines, k) <==> FenceEnd(lines[k+1..], fence.marker, fence.length).None?
  {
    hide OpeningFence, IsClosing, FenceEnd;
    var fence, later := OpeningFence(lines[k]).value, lines[k+1..];
    FenceEndNone(later, fence.marker, fence.length);
    assert forall i :: k < i < |lines| ==> lines[i] == later[i-k-1];
    assert forall j :: 0 <= j < |later| ==> later[j] == lines[k+1+j];
  }

  /** A step stops for an unclosed fence exactly at a plain fence or behind a tag. */
  lemma UnclosedStep(lines: seq<string>, t: nat, at: nat, accepts: string -> bool)
    requires t < |lines|
    ensures StepOn(lines[t..], accepts) == Stop(UnclosedFence, at) <==>
              NeverClosed(lines, t + at) && (at == 0 || FenceOfTag(lines, t, t + at))
  {
    hide IsClosing, FenceEnd, FixtureTag, IsJsonInfo, Join, AllSpace, OpeningFence, NeverClosed, Blanks;
    var rest := lines[t..];
    assert rest[0] == lines[t] && rest[1..] == lines[t+1..];
    if OpeningFence(lines[t]).Some? {
      NeverClosedMeans(lines, t);
      NotATag(lines, t, at);
    } else {
      NoFenceHere(lines, t);
      if FixtureTag(lines[t]).Some? {
        var b := 1 + Blanks(rest[1..]);
        FirstNonBlank(lines, t, at);
        if t + b < |lines| && OpeningFence(lines[t+b]).Some? {
          assert rest[b] == lines[t+b] && rest[b+1..] == lines[t+b+1..];
          NeverClosedMeans(lines, t + b);
        } else if t + b < |lines| {
          assert rest[b] == lines[t+b];
        }
      }
    }
  }

  lemma NotATag(lines: seq<string>, t: nat, at: nat)
    requires t < |lines| && OpeningFence(lines[t]).Some?
    ensures !FenceOfTag(lines, t, t + at)
  {
  }

  lemma NoFenceHere(lines: seq<string>, t: nat)
    requires t < |lines| && OpeningFence(lines[t]).None?
    ensures !NeverClosed(lines, t)
  {
  }

  /** The fence of a tag can only stand on the first line that is not blank. */
  lemma FirstNonBlank(lines: seq<string>, t: nat, at: nat)
    requires t < |lines|
    ensures FenceOfTag(lines, t, t + at) ==> at == 1 + Blanks(lines[t+1..])
    ensures var k := t + 1 + Blanks(lines[t+1..]);
            k < |lines| ==> !AllSpace(lines[k]) && forall i :: t < i < k ==> AllSpace(lines[i])
  {
    hide AllSpace, OpeningFence, FixtureTag, IsJsonInfo;
    var later := lines[t+1..];
    var b := Blanks(later);
    assert forall i :: 0 <= i < |later| ==> later[i] == lines[t+1+i];
    if FenceOfTag(lines, t, t + at) {
      assert later[at-1] == lines[t+at];
      assert !(at - 1 < b);
      assert !(b < at - 1);
    }
    forall i | t < i < t + 1 + b ensures AllSpace(lines[i]) {
      assert later[i-t-1] == lines[i];
    }
  }

  /** Exactly when the extraction reports an unclosed fence at line `n`: the scan
      stands at a fence there, or at a tag whose JSON fence is there, and no later
      line closes it. CommonMark would close it at the end of the document. */
  lemma UnclosedFenceIsAnError(lines: seq<string>, n: nat, accepts: string -> bool)
    ensures Extract(lines, accepts) == Err(ScanError(UnclosedFence, n + 1)) <==>
              NeverClosed(lines, n)
              && exists t: nat :: t < |lines| && Reaches(lines, t, accepts) && (t == n || FenceOfTag(lines, t, n))
  {
    hide StepOn, Reaches, NeverClosed, FenceOfTag, Scan;
    var e := ScanError(UnclosedFence, n + 1);
    FailureIsExact(lines, 0, accepts, e);
    if t: nat, at: nat :| StopsAt(lines, t, UnclosedFence, at, accepts) && e.line == t + at + 1 {
      UnclosedStep(lines, t, at, accepts);
      assert Reaches(lines, t, accepts) && (t == n || FenceOfTag(lines, t, n));
    }
    if NeverClosed(lines, n) {
      if t: nat :| t < |lines| && Reaches(lines, t, accepts) && (t == n || FenceOfTag(lines, t, n)) {
        TagBeforeFence(lines, t, n);
        var at: nat := n - t;
        UnclosedStep(lines, t, at, accepts);
        assert StopsAt(lines, t, e.problem, at, accepts) && e.line == 0 + t + at + 1;
      }
    }
  }

  lemma TagBeforeFence(lines: seq<string>, t: nat, n: nat)
    requires t == n || FenceOfTag(lines, t, n)
    ensures t <= n
  {
  }
}
