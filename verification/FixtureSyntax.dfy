/** The three patterns of the scanner as plain grammars: which lines open a fence,
    which close it, and which are tags, in both directions. */
module FixtureSyntax {
  import opened Results
  import opened Text
  import opened FixtureScanner
  import opened FixtureProperties
  import opened FixturePrinting

  // ---- Closing fences ----

  lemma IndentParts(line: string)
    ensures var k, rest := Run(line, ' '), Unindented(line);
            if k <= 3 then line == Marks(' ', k) + rest else rest != [] && rest[0] == ' '
  {
    var k := Run(line, ' ');
    assert k <= 3 ==> line[..k] == Marks(' ', k);
  }

  lemma RunParts(s: string, c: char)
    ensures s == Marks(c, Run(s, c)) + s[Run(s, c)..]
  {
    assert s[..Run(s, c)] == Marks(c, Run(s, c));
  }

  lemma ClosingParts(line: string, marker: char, minimum: nat) returns (i: nat, n: nat, tail: string)
    requires marker in {'`', '~'} && minimum >= 1 && IsClosing(line, marker, minimum)
    ensures i <= 3 && n >= minimum && AllSpace(tail) && line == Marks(' ', i) + Marks(marker, n) + tail
  {
    i := Run(line, ' ');
    var rest := Unindented(line);
    n := Run(rest, marker);
    tail := rest[n..];
    IndentParts(line);
    RunParts(rest, marker);
    assert rest != [] && rest[0] == marker;
    hide Unindented, Marks;
    assert Marks(' ', i) + (Marks(marker, n) + tail) == Marks(' ', i) + Marks(marker, n) + tail;
  }

  /** A line closes a fence exactly when it is: up to three spaces, the marker of the
      fence at least as often as the fence has it, and white space. */
  lemma ClosesIff(line: string, marker: char, minimum: nat)
    requires marker in {'`', '~'} && minimum >= 1
    ensures IsClosing(line, marker, minimum) <==>
              exists i: nat, n: nat, tail: string ::
                i <= 3 && n >= minimum && AllSpace(tail) && line == Marks(' ', i) + Marks(marker, n) + tail
  {
    hide IsClosing, AllSpace, Marks;
    if IsClosing(line, marker, minimum) {
      var i, n, tail := ClosingParts(line, marker, minimum);
    }
    if i: nat, n: nat, tail: string :|
      i <= 3 && n >= minimum && AllSpace(tail) && line == Marks(' ', i) + Marks(marker, n) + tail {
      LongRunCloses(i, marker, n, tail, minimum);
      assert Marks(' ', i) + Marks(marker, n) + tail == Marks(' ', i) + (Marks(marker, n) + tail);
    }
  }

  // ---- Opening fences ----

  /** A line of an opening fence: up to three spaces, at least three equal markers,
      and an info text on the same line, without backticks behind backticks. */
  predicate Opens(line: string, i: nat, marker: char, n: nat, tail: string) {
    && i <= 3 && marker in {'`', '~'} && n >= 3
    && line == Marks(' ', i) + Marks(marker, n) + tail
    && (tail == [] || tail[0] != marker)
    && '\r' !in tail && '\n' !in tail
    && (marker == '`' ==> '`' !in tail)
  }

  lemma BacktickSurvives(s: string)
    ensures '`' in s <==> '`' in Strip(s)
  {
    var before, after := StripParts(s);
    assert forall k :: 0 <= k < |before| ==> IsSpace(before[k]);
    assert forall k :: 0 <= k < |after| ==> IsSpace(after[k]);
  }

  lemma OpeningParts(line: string) returns (i: nat, tail: string)
    requires OpeningFence(line).Some?
    ensures var f := OpeningFence(line).value; Opens(line, i, f.marker, f.length, tail) && f.info == Strip(tail)
  {
    hide Unindented, Marks, Strip;
    i := Run(line, ' ');
    var rest := Unindented(line);
    var n := Run(rest, rest[0]);
    tail := rest[n..];
    IndentParts(line);
    RunParts(rest, rest[0]);
    BacktickSurvives(tail);
    assert Marks(' ', i) + (Marks(rest[0], n) + tail) == Marks(' ', i) + Marks(rest[0], n) + tail;
  }

  lemma OpenedAsWritten(line: string, i: nat, marker: char, n: nat, tail: string)
    requires Opens(line, i, marker, n, tail)
    ensures OpeningFence(line) == Some(Fence(marker, n, Strip(tail)))
  {
    var rest := Marks(marker, n) + tail;
    assert line == Marks(' ', i) + rest;
    assert rest[0] == marker;
    UnindentedIs(i, rest);
    MarksRun(marker, n, tail);
    BacktickSurvives(tail);
    hide Strip, IsSpace, Unindented;
  }

  /** A line opens a fence exactly when it is written as one, and the fence read is
      the marker, its number and the stripped info text. */
  lemma OpensIff(line: string, marker: char, n: nat, info: string)
    ensures OpeningFence(line) == Some(Fence(marker, n, info)) <==>
              exists i, tail :: Opens(line, i, marker, n, tail) && info == Strip(tail)
  {
    hide Strip, Opens, OpeningFence;
    if OpeningFence(line) == Some(Fence(marker, n, info)) {
      var i, tail := OpeningParts(line);
    }
    if i: nat, tail: string :| Opens(line, i, marker, n, tail) && info == Strip(tail) {
      OpenedAsWritten(line, i, marker, n, tail);
    }
  }

  /** `casefold` on the letters that matter: the long s is the only one beyond ASCII
      that folds to a letter of "json". */
  function Fold(c: char): char {
    if 'A' <= c <= 'Z' then (c as int + 32) as char else if c == '\U{17F}' then 's' else c
  }

  lemma JsonInfoIff(info: string)
    ensures IsJsonInfo(info) <==> |info| == 4 && seq(4, k requires 0 <= k < 4 => Fold(info[k])) == "json"
  {
    if |info| == 4 {
      var folded := seq(4, k requires 0 <= k < 4 => Fold(info[k]));
      assert folded == [Fold(info[0]), Fold(info[1]), Fold(info[2]), Fold(info[3])];
      var json := "json";
      assert folded == json <==> folded[0] == json[0] && folded[1] == json[1] && folded[2] == json[2] && folded[3] == json[3];
    }
  }

  // ---- Tags ----

  lemma NamesAreRuns(name: string)
    ensures IsName(name) <==> name != [] && IsNameStart(name[0]) && forall i :: 0 <= i < |name| ==> IsNameChar(name[i])
  {
  }

  /** Space, then a known text, then the rest. */
  lemma SpacedPart(s: string, prefix: string) returns (space: string, rest: string)
    requires prefix <= SkipSpace(s)
    ensures AllSpace(space) && s == space + (prefix + rest) && rest == SkipSpace(s)[|prefix|..]
  {
    SkippedIsSpace(s);
    space, rest := s[..|s|-|SkipSpace(s)|], SkipSpace(s)[|prefix|..];
    assert SkipSpace(s) == prefix + rest;
  }

  lemma TagPartsOf(line: string) returns (t: TagStyle)
    requires FixtureTag(line).Some?
    ensures GoodTag(t) && IsName(FixtureTag(line).value) && line == TagLine(t, FixtureTag(line).value)
  {
    hide SkipSpace, NameRun, AllSpace, IsSpace, IsName, IsNameStart, IsNameChar;
    var lead, a := SpacedPart(line, OPEN_COMMENT);
    var gap, b := SpacedPart(a, KEYWORD);
    var c := SkipSpace(b);
    var name := c[..NameRun(c)];
    var beforeName, d := SpacedPart(b, name);
    var afterName, tail := SpacedPart(d, CLOSE_COMMENT);
    NamesAreRuns(name);
    assert d == c[|name|..];
    t := TagStyle(lead, gap, beforeName, afterName, tail);
  }

  /** A line is a tag exactly when it is written as one: a comment that holds the
      keyword and a name, with any white space around the parts. */
  lemma TagIff(line: string, name: string)
    ensures FixtureTag(line) == Some(name) <==> exists t :: GoodTag(t) && IsName(name) && line == TagLine(t, name)
  {
    hide GoodTag, IsName, TagLine, FixtureTag;
    if FixtureTag(line) == Some(name) {
      var t := TagPartsOf(line);
    }
    if t :| GoodTag(t) && IsName(name) && line == TagLine(t, name) {
      TagLineIsTag(t, name);
    }
  }
}
