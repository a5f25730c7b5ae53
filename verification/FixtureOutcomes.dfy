/** What one step of the scanner does, told by the lines alone: which lines it passes
    over, which fixture it reads, and which of the three errors it raises. */
module FixtureOutcomes {
  import opened Results
  import opened Text
  import opened FixtureScanner
  import opened FixtureProperties

  /** A line that neither opens a fence nor is a tag. */
  predicate Plain(lines: seq<string>, t: nat) {
    t < |lines| && OpeningFence(lines[t]).None? && FixtureTag(lines[t]).None?
  }

  /** Line `e` is the first to close the fence that line `k` opens. */
  predicate ClosedAt(lines: seq<string>, k: nat, e: nat) {
    k < e < |lines| && OpeningFence(lines[k]).Some?
    && var fence := OpeningFence(lines[k]).value;
       IsClosing(lines[e], fence.marker, fence.length)
       && forall i :: k < i < e ==> !IsClosing(lines[i], fence.marker, fence.length)
  }

  predicate LooseTag(lines: seq<string>, t: nat) {
    t < |lines| && OpeningFence(lines[t]).None? && FixtureTag(lines[t]).Some?
  }

  /** The tag on line `t` has its JSON fence on line `k`, closed on line `e`. */
  predicate TaggedBlock(lines: seq<string>, t: nat, k: nat, e: nat) {
    FenceOfTag(lines, t, k) && ClosedAt(lines, k, e)
  }

  function RawOf(lines: seq<string>, k: nat, e: nat): string
    requires k < e <= |lines|
  {
    Join(lines[k+1..e], "\n")
  }

  /** `f` is the fixture of the tag on line `t`: its name, the lines between the fences
      on lines `k` and `e`, which are accepted, and the number of the tag's line. */
  predicate Yields(lines: seq<string>, t: nat, k: nat, e: nat, f: Fixture, accepts: string -> bool) {
    TaggedBlock(lines, t, k, e) && FixtureTag(lines[t]) == Some(f.name)
    && f.raw == RawOf(lines, k, e) && accepts(f.raw) && f.tagLine == t + 1
  }

  lemma BlockOrder(lines: seq<string>, t: nat, k: nat, e: nat)
    requires TaggedBlock(lines, t, k, e)
    ensures t < k < e < |lines|
  {
  }

  lemma ClosedAtMeans(lines: seq<string>, k: nat, e: nat)
    requires k < |lines| && OpeningFence(lines[k]).Some?
    ensures var fence := OpeningFence(lines[k]).value;
            ClosedAt(lines, k, e) <==> k < e && FenceEnd(lines[k+1..], fence.marker, fence.length) == Some(e - k - 1)
  {
    hide OpeningFence, IsClosing, FenceEnd;
    var fence, later := OpeningFence(lines[k]).value, lines[k+1..];
    FenceEndSpec(later, fence.marker, fence.length);
    assert forall j :: 0 <= j < |later| ==> later[j] == lines[k+1+j];
    if ClosedAt(lines, k, e) {
      FenceEndIs(later, fence.marker, fence.length, e - k - 1);
    }
    if k < e && FenceEnd(later, fence.marker, fence.length) == Some(e - k - 1) {
      forall i | k < i < e ensures !IsClosing(lines[i], fence.marker, fence.length) {
        assert later[i-k-1] == lines[i];
      }
    }
  }

  /** The step of a tag by its parts: the first line that is not blank, and the end
      of the fence there. */
  lemma TagStepParts(lines: seq<string>, t: nat, accepts: string -> bool)
    requires LooseTag(lines, t)
    ensures var k := t + 1 + Blanks(lines[t+1..]);
            var step := StepOn(lines[t..], accepts);
            (forall j: nat :: FenceOfTag(lines, t, j) ==> j == k)
            && if !FenceOfTag(lines, t, k) then step == Stop(TagWithoutJsonFence, 0)
               else
                 var fence := OpeningFence(lines[k]).value;
                 match FenceEnd(lines[k+1..], fence.marker, fence.length)
                 case None => step == Stop(UnclosedFence, k - t)
                 case Some(x) =>
                   step == if accepts(RawOf(lines, k, k + 1 + x)) then Found(FixtureTag(lines[t]).value, RawOf(lines, k, k + 1 + x), k + 2 + x - t)
                           else Stop(InvalidJson, 0)
  {
    hide IsClosing, FenceEnd, FixtureTag, IsJsonInfo, Join, AllSpace, OpeningFence, Blanks;
    var rest := lines[t..];
    assert rest[0] == lines[t] && rest[1..] == lines[t+1..];
    var b := 1 + Blanks(rest[1..]);
    forall j: nat | FenceOfTag(lines, t, j) ensures j == t + b {
      FirstNonBlank(lines, t, j - t);
    }
    FirstNonBlank(lines, t, b);
    if t + b < |lines| {
      assert rest[b] == lines[t+b] && rest[b+1..] == lines[t+b+1..];
      if FenceOfTag(lines, t, t + b) {
        var fence := OpeningFence(lines[t+b]).value;
        var end := FenceEnd(lines[t+b+1..], fence.marker, fence.length);
        if end.Some? {
          assert rest[b+1..b+1+end.value] == lines[t+b+1..t+b+1+end.value];
        }
      }
    }
  }

  /** A step reads a fixture exactly where a tag has a closed JSON fence whose text is
      accepted: the name of the tag, the lines between the fences, up to the closing
      fence. */
  lemma FoundStep(lines: seq<string>, t: nat, f: Fixture, n: nat, accepts: string -> bool)
    requires t < |lines|
    ensures StepOn(lines[t..], accepts) == Found(f.name, f.raw, n) && f.tagLine == t + 1 <==>
              exists k: nat, e: nat :: Yields(lines, t, k, e, f, accepts) && n == e + 1 - t
  {
    hide IsClosing, FenceEnd, FixtureTag, IsJsonInfo, Join, AllSpace, OpeningFence, Blanks, TaggedStep, ClosedAt, FenceOfTag;
    NoTagStep(lines, t, accepts);
    if LooseTag(lines, t) {
      var k := t + 1 + Blanks(lines[t+1..]);
      TagStepParts(lines, t, accepts);
      if FenceOfTag(lines, t, k) {
        FenceFacts(lines, t, k);
        ClosedSomewhere(lines, k);
        if StepOn(lines[t..], accepts) == Found(f.name, f.raw, n) && f.tagLine == t + 1 {
          assert Yields(lines, t, k, t + n - 1, f, accepts);
        }
      }
    } else {
      OnlyLooseTags(lines, t);
    }
  }

  lemma FenceFacts(lines: seq<string>, t: nat, k: nat)
    requires FenceOfTag(lines, t, k)
    ensures t < k < |lines| && LooseTag(lines, t) && OpeningFence(lines[k]).Some?
  {
  }

  lemma OnlyLooseTags(lines: seq<string>, t: nat)
    requires !LooseTag(lines, t)
    ensures forall k: nat :: !FenceOfTag(lines, t, k)
  {
  }

  lemma ClosedSomewhere(lines: seq<string>, k: nat)
    requires k < |lines| && OpeningFence(lines[k]).Some?
    ensures var fence := OpeningFence(lines[k]).value;
            forall e: nat :: ClosedAt(lines, k, e) <==> k < e && FenceEnd(lines[k+1..], fence.marker, fence.length) == Some(e - k - 1)
  {
    hide ClosedAt, OpeningFence, FenceEnd;
    var fence := OpeningFence(lines[k]).value;
    forall e: nat
      ensures ClosedAt(lines, k, e) <==> k < e && FenceEnd(lines[k+1..], fence.marker, fence.length) == Some(e - k - 1)
    {
      ClosedAtMeans(lines, k, e);
    }
  }

  /** Where there is no loose tag a step reads nothing and raises no error of a tag. */
  lemma NoTagStep(lines: seq<string>, t: nat, accepts: string -> bool)
    requires t < |lines|
    ensures var step := StepOn(lines[t..], accepts);
            !LooseTag(lines, t) ==> !step.Found? && (step.Stop? ==> step.problem == UnclosedFence)
    ensures LooseTag(lines, t) ==> !StepOn(lines[t..], accepts).Move?
  {
    hide OpeningFence, FixtureTag, FenceEnd, TaggedStep;
    assert lines[t..][0] == lines[t];
  }

  /** A step passes over one plain line, or over a whole fence up to the first line
      that closes it; over nothing else. */
  lemma MoveStep(lines: seq<string>, t: nat, n: nat, accepts: string -> bool)
    requires t < |lines|
    ensures StepOn(lines[t..], accepts) == Move(n) <==>
              (n == 1 && Plain(lines, t)) || (n >= 1 && ClosedAt(lines, t, t + n - 1))
  {
    hide IsClosing, FenceEnd, FixtureTag, OpeningFence, TaggedStep, ClosedAt;
    var rest := lines[t..];
    assert rest[0] == lines[t] && rest[1..] == lines[t+1..];
    if OpeningFence(lines[t]).Some? {
      ClosedSomewhere(lines, t);
    } else {
      NeverClosedWithout(lines, t);
    }
  }

  lemma NeverClosedWithout(lines: seq<string>, t: nat)
    requires t < |lines| && OpeningFence(lines[t]).None?
    ensures forall e: nat :: !ClosedAt(lines, t, e)
  {
  }

  /** A step raises for a tag without a JSON fence exactly where the first line behind
      the tag that is not blank opens no JSON fence, or there is no such line. */
  lemma UntaggedStep(lines: seq<string>, t: nat, at: nat, accepts: string -> bool)
    requires t < |lines|
    ensures StepOn(lines[t..], accepts) == Stop(TagWithoutJsonFence, at) <==>
              at == 0 && LooseTag(lines, t) && forall k: nat :: !FenceOfTag(lines, t, k)
  {
    hide FenceEnd, FixtureTag, OpeningFence, TaggedStep, FenceOfTag, Blanks, Join;
    NoTagStep(lines, t, accepts);
    if LooseTag(lines, t) {
      TagStepParts(lines, t, accepts);
    }
  }

  /** A step raises for its JSON exactly where a tagged, closed JSON fence holds a text
      that is not accepted. */
  lemma RejectedStep(lines: seq<string>, t: nat, at: nat, accepts: string -> bool)
    requires t < |lines|
    ensures StepOn(lines[t..], accepts) == Stop(InvalidJson, at) <==>
              at == 0 && exists k: nat, e: nat :: TaggedBlock(lines, t, k, e) && !accepts(RawOf(lines, k, e))
  {
    hide FenceEnd, FixtureTag, OpeningFence, TaggedStep, FenceOfTag, ClosedAt, Blanks, Join;
    NoTagStep(lines, t, accepts);
    if LooseTag(lines, t) {
      var k := t + 1 + Blanks(lines[t+1..]);
      TagStepParts(lines, t, accepts);
      if FenceOfTag(lines, t, k) {
        FenceFacts(lines, t, k);
        ClosedSomewhere(lines, k);
        var fence := OpeningFence(lines[k]).value;
        var end := FenceEnd(lines[k+1..], fence.marker, fence.length);
        if end.Some? {
          assert ClosedAt(lines, k, k + 1 + end.value);
          assert TaggedBlock(lines, t, k, k + 1 + end.value);
        }
      }
    } else {
      OnlyLooseTags(lines, t);
    }
  }

  lemma {:induction false} ReachedByStep(lines: seq<string>, t: nat, accepts: string -> bool)
    requires 0 < t <= |lines|
    ensures Reaches(lines, t, accepts) <==>
              exists s: nat :: s < t && Reaches(lines, s, accepts) && !StepOn(lines[s..], accepts).Stop?
                && StepOn(lines[s..], accepts).consumed == t - s
    decreases t
  {
    hide StepOn;
    var n := Consumed(lines, accepts);
    assert lines[0..] == lines;
    if Reaches(lines, t, accepts) {
      if n == t {
        assert Reaches(lines, 0, accepts);
      } else {
        var tail := lines[n..];
        ReachedByStep(tail, t - n, accepts);
        var s: nat :| s < t - n && Reaches(tail, s, accepts) && !StepOn(tail[s..], accepts).Stop?
          && StepOn(tail[s..], accepts).consumed == t - n - s;
        assert tail[s..] == lines[n+s..];
        assert Reaches(lines, n + s, accepts);
      }
    }
    if s: nat :| s < t && Reaches(lines, s, accepts) && !StepOn(lines[s..], accepts).Stop? && StepOn(lines[s..], accepts).consumed == t - s {
      ReachesNext(lines, s, t, accepts);
    }
  }

  lemma {:induction false} ReachesNext(lines: seq<string>, s: nat, t: nat, accepts: string -> bool)
    requires s < t <= |lines| && Reaches(lines, s, accepts)
    requires !StepOn(lines[s..], accepts).Stop? && StepOn(lines[s..], accepts).consumed == t - s
    ensures Reaches(lines, t, accepts)
    decreases s
  {
    hide StepOn;
    if s == 0 {
      assert lines[0..] == lines;
      assert Reaches(lines[t..], 0, accepts);
    } else {
      var n := Consumed(lines, accepts);
      assert lines[n..][s-n..] == lines[s..];
      ReachesNext(lines[n..], s - n, t - n, accepts);
    }
  }

  predicate AcceptedBlock(lines: seq<string>, t: nat, k: nat, e: nat, accepts: string -> bool) {
    TaggedBlock(lines, t, k, e) && accepts(RawOf(lines, k, e))
  }

  /** What stands from line `s` up to line `t`: a plain line, a closed fence, or a tag
      with its closed fence around an accepted text. */
  ghost predicate PassesTo(lines: seq<string>, s: nat, t: nat, accepts: string -> bool) {
    s < t && ((t == s + 1 && Plain(lines, s)) || ClosedAt(lines, s, t - 1)
              || exists k: nat, e: nat :: AcceptedBlock(lines, s, k, e, accepts) && t == e + 1)
  }

  lemma StepPasses(lines: seq<string>, s: nat, t: nat, accepts: string -> bool)
    requires s < t <= |lines|
    ensures !StepOn(lines[s..], accepts).Stop? && StepOn(lines[s..], accepts).consumed == t - s <==> PassesTo(lines, s, t, accepts)
  {
    hide StepOn, TaggedBlock, FixtureTag, RawOf, Plain, ClosedAt;
    var step := StepOn(lines[s..], accepts);
    MoveStep(lines, s, t - s, accepts);
    if step.Found? {
      var f := Fixture(s + 1, step.name, step.raw);
      FoundStep(lines, s, f, step.consumed, accepts);
      var k: nat, e: nat :| Yields(lines, s, k, e, f, accepts) && step.consumed == e + 1 - s;
      BlockOrder(lines, s, k, e);
      assert AcceptedBlock(lines, s, k, e, accepts);
    }
    if k: nat, e: nat :| AcceptedBlock(lines, s, k, e, accepts) && t == e + 1 {
      BlockOrder(lines, s, k, e);
      TagOfBlock(lines, s, k, e);
      var f := Fixture(s + 1, FixtureTag(lines[s]).value, RawOf(lines, k, e));
      assert Yields(lines, s, k, e, f, accepts);
      FoundStep(lines, s, f, t - s, accepts);
    }
  }

  lemma TagOfBlock(lines: seq<string>, t: nat, k: nat, e: nat)
    requires TaggedBlock(lines, t, k, e)
    ensures FixtureTag(lines[t]).Some?
  {
  }

  /** The lines where the scan stands outside every block: the first one, and the one
      behind a plain line, behind a closed fence, or behind an accepted fixture at
      such a line. */
  lemma ReachesMeans(lines: seq<string>, t: nat, accepts: string -> bool)
    requires t <= |lines|
    ensures Reaches(lines, t, accepts) <==> t == 0 || exists s: nat :: s < t && Reaches(lines, s, accepts) && PassesTo(lines, s, t, accepts)
  {
    hide StepOn, PassesTo;
    if t > 0 {
      ReachedByStep(lines, t, accepts);
      forall s: nat | s < t
        ensures !StepOn(lines[s..], accepts).Stop? && StepOn(lines[s..], accepts).consumed == t - s <==> PassesTo(lines, s, t, accepts)
      {
        StepPasses(lines, s, t, accepts);
      }
    }
  }

  // ---- The whole extraction, told by the lines ----

  /** The fixtures of a successful extraction: one for every tag outside blocks, with
      the lines between its fences, at its own line number. */
  lemma ExtractedAre(lines: seq<string>, accepts: string -> bool, f: Fixture)
    requires Extract(lines, accepts).Ok?
    ensures f in Extract(lines, accepts).value <==>
              exists t: nat, k: nat, e: nat :: t < |lines| && Reaches(lines, t, accepts) && Yields(lines, t, k, e, f, accepts)
  {
    hide StepOn, Reaches, FixtureTag, RawOf, Scan, FenceOfTag, ClosedAt;
    ScanIsExact(lines, 0, accepts);
    if t: nat, n: nat :| TagAt(lines, t, f.name, f.raw, n, accepts) && f.tagLine == 0 + t + 1 {
      FoundStep(lines, t, f, n, accepts);
    }
    if t: nat, k: nat, e: nat :| t < |lines| && Reaches(lines, t, accepts) && Yields(lines, t, k, e, f, accepts) {
      BlockOrder(lines, t, k, e);
      FoundStep(lines, t, f, e + 1 - t, accepts);
      assert TagAt(lines, t, f.name, f.raw, e + 1 - t, accepts);
    }
  }

  /** The extraction reports a tag without its JSON fence exactly for such a tag at a
      line it reaches, and names the line of the tag. */
  lemma MissingFenceIsAnError(lines: seq<string>, n: nat, accepts: string -> bool)
    ensures Extract(lines, accepts) == Err(ScanError(TagWithoutJsonFence, n + 1)) <==>
              LooseTag(lines, n) && Reaches(lines, n, accepts) && forall k: nat :: !FenceOfTag(lines, n, k)
  {
    hide StepOn, Reaches, FenceOfTag, LooseTag, Scan;
    var e := ScanError(TagWithoutJsonFence, n + 1);
    FailureIsExact(lines, 0, accepts, e);
    if t: nat, at: nat :| StopsAt(lines, t, e.problem, at, accepts) && e.line == t + at + 1 {
      UntaggedStep(lines, t, at, accepts);
    }
    LooseIsInside(lines, n);
    if LooseTag(lines, n) && Reaches(lines, n, accepts) && forall k: nat :: !FenceOfTag(lines, n, k) {
      UntaggedStep(lines, n, 0, accepts);
      assert StopsAt(lines, n, e.problem, 0, accepts);
    }
  }

  lemma LooseIsInside(lines: seq<string>, t: nat)
    ensures LooseTag(lines, t) ==> t < |lines|
  {
  }

  /** The extraction reports invalid JSON exactly for a tagged, closed block at a line
      it reaches whose text is not accepted, and names the line of the tag. */
  lemma InvalidJsonIsAnError(lines: seq<string>, n: nat, accepts: string -> bool)
    ensures Extract(lines, accepts) == Err(ScanError(InvalidJson, n + 1)) <==>
              n < |lines| && Reaches(lines, n, accepts)
              && exists k: nat, e: nat :: TaggedBlock(lines, n, k, e) && !accepts(RawOf(lines, k, e))
  {
    hide StepOn, Reaches, TaggedBlock, RawOf, Scan;
    var e := ScanError(InvalidJson, n + 1);
    FailureIsExact(lines, 0, accepts, e);
    if t: nat, at: nat :| StopsAt(lines, t, e.problem, at, accepts) && e.line == t + at + 1 {
      RejectedStep(lines, t, at, accepts);
    }
    if n < |lines| {
      RejectedStep(lines, n, 0, accepts);
      if StepOn(lines[n..], accepts) == Stop(InvalidJson, 0) && Reaches(lines, n, accepts) {
        assert StopsAt(lines, n, e.problem, 0, accepts);
      }
    }
  }
}
