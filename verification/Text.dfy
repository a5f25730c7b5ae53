/** Python's text operations that the scanners and serializers rely on. */
module Text {
  import opened Results

  /** `str.isspace` for one character, which is also what `\s` matches. */
  predicate IsSpace(c: char) {
    || '\t' <= c <= '\r'
    || '\U{1C}' <= c <= ' '
    || c == '\U{85}' || c == '\U{A0}' || c == '\U{1680}'
    || '\U{2000}' <= c <= '\U{200A}'
    || c == '\U{2028}' || c == '\U{2029}' || c == '\U{202F}' || c == '\U{205F}' || c == '\U{3000}'
  }

  predicate AllSpace(s: string) { forall i :: 0 <= i < |s| ==> IsSpace(s[i]) }

  function SkipSpace(s: string): (r: string)
    ensures |r| <= |s|
    ensures r == [] || !IsSpace(r[0])
  {
    if s != [] && IsSpace(s[0]) then SkipSpace(s[1..]) else s
  }

  function SkipSpaceEnd(s: string): (r: string)
    ensures r == [] || !IsSpace(r[|r|-1])
  {
    if s != [] && IsSpace(s[|s|-1]) then SkipSpaceEnd(s[..|s|-1]) else s
  }

  function Strip(s: string): string { SkipSpaceEnd(SkipSpace(s)) }

  lemma {:induction false} SkipsSpace(space: string, s: string)
    requires AllSpace(space) && (s == [] || !IsSpace(s[0]))
    ensures SkipSpace(space + s) == s
  {
    if space == [] {
      assert space + s == s;
    } else {
      assert (space + s)[1..] == space[1..] + s;
      SkipsSpace(space[1..], s);
    }
  }

  lemma {:induction false} SkipsSpaceEnd(s: string, space: string)
    requires AllSpace(space) && (s == [] || !IsSpace(s[|s|-1]))
    ensures SkipSpaceEnd(s + space) == s
  {
    if space == [] {
      assert s + space == s;
    } else {
      assert (s + space)[..|s + space|-1] == s + space[..|space|-1];
      SkipsSpaceEnd(s, space[..|space|-1]);
    }
  }

  lemma Strips(before: string, s: string, after: string)
    requires AllSpace(before) && AllSpace(after) && s != [] && !IsSpace(s[0]) && !IsSpace(s[|s|-1])
    ensures Strip(before + s + after) == s
  {
    assert before + s + after == before + (s + after);
    SkipsSpace(before, s + after);
    SkipsSpaceEnd(s, after);
  }

  /** The white space of Python's `str.isspace`, one code point at a time. */
  lemma SpaceIs(c: char)
    ensures IsSpace(c) <==>
              c in {'\t', '\n', '\U{0B}', '\U{0C}', '\r', '\U{1C}', '\U{1D}', '\U{1E}', '\U{1F}', ' ', '\U{85}', '\U{A0}',
                    '\U{1680}', '\U{2000}', '\U{2001}', '\U{2002}', '\U{2003}', '\U{2004}', '\U{2005}', '\U{2006}', '\U{2007}',
                    '\U{2008}', '\U{2009}', '\U{200A}', '\U{2028}', '\U{2029}', '\U{202F}', '\U{205F}', '\U{3000}'}
  {
  }

  lemma {:induction false} SkippedIsSpace(s: string)
    ensures |SkipSpace(s)| <= |s|
    ensures var k := |s| - |SkipSpace(s)|; SkipSpace(s) == s[k..] && AllSpace(s[..k]) && s == s[..k] + SkipSpace(s)
  {
    if s != [] && IsSpace(s[0]) {
      SkippedIsSpace(s[1..]);
      var k := |s| - |SkipSpace(s)|;
      assert s[1..][k-1..] == s[k..];
      assert s[..k] == [s[0]] + s[1..][..k-1];
    }
  }

  lemma {:induction false} SkippedEndIsSpace(s: string)
    ensures |SkipSpaceEnd(s)| <= |s| && SkipSpaceEnd(s) == s[..|SkipSpaceEnd(s)|] && AllSpace(s[|SkipSpaceEnd(s)|..])
  {
    if s != [] && IsSpace(s[|s|-1]) {
      var init := s[..|s|-1];
      SkippedEndIsSpace(init);
      var k := |SkipSpaceEnd(s)|;
      assert init[..k] == s[..k];
      assert s[k..] == init[k..] + [s[|s|-1]];
    }
  }

  lemma StripParts(s: string) returns (before: string, after: string)
    ensures AllSpace(before) && AllSpace(after) && s == before + Strip(s) + after
    ensures var r := Strip(s); r == [] || (!IsSpace(r[0]) && !IsSpace(r[|r|-1]))
  {
    hide SkipSpace, SkipSpaceEnd, AllSpace, IsSpace;
    var a := SkipSpace(s);
    SkippedIsSpace(s);
    SkippedEndIsSpace(a);
    var r := SkipSpaceEnd(a);
    before, after := s[..|s|-|a|], a[|r|..];
    TwoCuts(s, before, a, |r|);
    assert r != [] ==> r[0] == a[0];
  }

  lemma TwoCuts(s: string, before: string, a: string, n: nat)
    requires s == before + a && n <= |a|
    ensures s == before + a[..n] + a[n..]
  {
  }

  lemma {:induction false} OnlySpace(s: string)
    requires AllSpace(s)
    ensures SkipSpace(s) == []
  {
    if s != [] {
      OnlySpace(s[1..]);
    }
  }

  /** `str.strip`: what is left of a string without the white space at its ends. */
  lemma StripIs(s: string, r: string)
    ensures Strip(s) == r <==>
              (r == [] || (!IsSpace(r[0]) && !IsSpace(r[|r|-1])))
              && exists before, after :: AllSpace(before) && AllSpace(after) && s == before + r + after
  {
    var x, y := StripParts(s);
    if before, after :| AllSpace(before) && AllSpace(after) && s == before + r + after {
      if r == [] {
        OnlySpace(s);
      } else if !IsSpace(r[0]) && !IsSpace(r[|r|-1]) {
        Strips(before, r, after);
      }
    }
  }

  // ---- split and replace ----

  /** `str.split` on a one-character separator. */
  function Split(s: string, sep: char): (parts: seq<string>)
    ensures |parts| >= 1
  {
    if s == [] then [[]]
    else
      var rest := Split(s[1..], sep);
      if s[0] == sep then [[]] + rest else [[s[0]] + rest[0]] + rest[1..]
  }

  function Join(parts: seq<string>, sep: string): string {
    if parts == [] then []
    else if |parts| == 1 then parts[0]
    else parts[0] + sep + Join(parts[1..], sep)
  }

  lemma {:induction false} SplitOne(s: string, sep: char)
    requires sep !in s
    ensures Split(s, sep) == [s]
  {
    if s != [] {
      SplitOne(s[1..], sep);
      assert s == [s[0]] + s[1..];
    }
  }

  lemma {:induction false} SplitFirst(s: string, sep: char, rest: string)
    requires sep !in s
    ensures Split(s + [sep] + rest, sep) == [s] + Split(rest, sep)
  {
    var whole := s + [sep] + rest;
    if s == [] {
      assert whole[1..] == rest;
    } else {
      SplitFirst(s[1..], sep, rest);
      assert whole[1..] == s[1..] + [sep] + rest;
      assert s == [s[0]] + s[1..];
    }
  }

  /** Splitting undoes joining when no part contains the separator. */
  lemma {:induction false} SplitJoin(parts: seq<string>, sep: char)
    requires parts != [] && forall p :: p in parts ==> sep !in p
    ensures Split(Join(parts, [sep]), sep) == parts
  {
    if |parts| == 1 {
      SplitOne(parts[0], sep);
    } else {
      SplitJoin(parts[1..], sep);
      SplitFirst(parts[0], sep, Join(parts[1..], [sep]));
      assert parts == [parts[0]] + parts[1..];
    }
  }

  /** `str.replace` of a two-character pattern: leftmost, without overlaps. */
  function Replace(s: string, first: char, second: char, with: char): string {
    if |s| < 2 then s
    else if s[0] == first && s[1] == second then [with] + Replace(s[2..], first, second, with)
    else [s[0]] + Replace(s[1..], first, second, with)
  }

  // ---- Decimal numerals ----

  predicate IsDigit(c: char) { '0' <= c <= '9' }

  function DigitValue(c: char): (d: nat)
    requires IsDigit(c)
    ensures d < 10
  {
    c as int - '0' as int
  }

  function DigitChar(d: nat): (c: char)
    requires d < 10
    ensures IsDigit(c) && DigitValue(c) == d
  {
    ('0' as int + d) as char
  }

  predicate Digits(s: string) { forall i :: 0 <= i < |s| ==> IsDigit(s[i]) }

  function Decimal(n: nat): (s: string)
    ensures s != [] && Digits(s)
  {
    if n < 10 then [DigitChar(n)] else Decimal(n / 10) + [DigitChar(n % 10)]
  }

  /** The digits of Python's `int(text)`, with single underscores between them. */
  function ReadDigits(s: string, afterDigit: bool, acc: nat): Option<nat> {
    if s == [] then if afterDigit then Some(acc) else None
    else if IsDigit(s[0]) then ReadDigits(s[1..], true, 10 * acc + DigitValue(s[0]))
    else if s[0] == '_' && afterDigit then ReadDigits(s[1..], false, acc)
    else None
  }

  /** A separator that is space to `str.strip`, but not to `int` in ASCII text. */
  predicate IsSeparator(c: char) { '\U{1C}' <= c <= '\U{1F}' }

  predicate IsAscii(s: string) { forall i :: 0 <= i < |s| ==> s[i] < '\U{80}' }

  /** Python's `int(text)` on ASCII digits: surrounding space, a sign, leading
      zeros and single underscores are accepted. */
  function ParseInt(text: string): Option<int> {
    var s := Strip(text);
    if s == [] then None
    else if IsAscii(text) && exists i :: 0 <= i < |text| && IsSeparator(text[i]) then None
    else if s[0] == '-' || s[0] == '+' then
      match ReadDigits(s[1..], false, 0)
      case Some(n) => Some(if s[0] == '-' then 0 - n else n as int)
      case None => None
    else
      match ReadDigits(s, false, 0)
      case Some(n) => Some(n)
      case None => None
  }

  lemma {:induction false} ReadSnoc(s: string, d: char, afterDigit: bool, acc: nat)
    requires Digits(s) && IsDigit(d) && s != []
    ensures ReadDigits(s, afterDigit, acc).Some?
    ensures ReadDigits(s + [d], afterDigit, acc) == Some(10 * ReadDigits(s, afterDigit, acc).value + DigitValue(d))
  {
    assert (s + [d])[1..] == s[1..] + [d];
    if |s| > 1 {
      ReadSnoc(s[1..], d, true, 10 * acc + DigitValue(s[0]));
    } else {
      var first := 10 * acc + DigitValue(s[0]);
      assert s[1..] + [d] == [d] && s[1..] == [] && [d][1..] == [];
      assert ReadDigits([d], true, first) == Some(10 * first + DigitValue(d));
      assert ReadDigits(s, afterDigit, acc) == Some(first);
    }
  }

  lemma {:induction false} ReadDecimal(n: nat)
    ensures ReadDigits(Decimal(n), false, 0) == Some(n)
  {
    if n >= 10 {
      ReadDecimal(n / 10);
      ReadSnoc(Decimal(n / 10), DigitChar(n % 10), false, 0);
    }
  }

  lemma NoSpaceStrip(s: string)
    requires s != [] && !IsSpace(s[0]) && !IsSpace(s[|s|-1])
    ensures Strip(s) == s
  {
  }

  /** `int` reads back every decimal numeral. */
  lemma ParseIntDecimal(n: nat)
    ensures ParseInt(Decimal(n)) == Some(n)
  {
    NoSpaceStrip(Decimal(n));
    ReadDecimal(n);
  }

  lemma DecimalInjective(m: nat, n: nat)
    requires Decimal(m) == Decimal(n)
    ensures m == n
  {
    ReadDecimal(m);
    ReadDecimal(n);
  }
}
