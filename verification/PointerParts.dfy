/** How the resolver reads one part of a reference: the decoding of `str.replace`, the
    numerals of `int`, and the index of a list. */
module PointerParts {
  import opened Results
  import opened Text
  import opened Json
  import opened JsonPointer

  // ---- str.replace ----

  /** The two characters do not stand side by side. */
  predicate Without(s: string, first: char, second: char) {
    forall i :: 0 <= i < |s| - 1 ==> !(s[i] == first && s[i+1] == second)
  }

  /** Replacing a pair of different characters takes the text apart at every place where
      the pair stands and joins the parts with the new character. */
  lemma {:induction false} ReplaceIsJoin(s: string, first: char, second: char, with: char) returns (parts: seq<string>)
    requires first != second
    ensures parts != [] && forall p :: p in parts ==> Without(p, first, second)
    ensures s == Join(parts, [first, second]) && Replace(s, first, second, with) == Join(parts, [with])
    ensures s != [] && parts[0] != [] ==> parts[0][0] == s[0]
  {
    if |s| < 2 {
      parts := [s];
    } else if s[0] == first && s[1] == second {
      var rest := ReplaceIsJoin(s[2..], first, second, with);
      parts := [""] + rest;
      JoinBegins(rest, [first, second]);
      JoinBegins(rest, [with]);
      assert s == [first, second] + s[2..];
    } else {
      var rest := ReplaceIsJoin(s[1..], first, second, with);
      parts := [[s[0]] + rest[0]] + rest[1..];
      JoinGrows(rest, s[0], [first, second]);
      JoinGrows(rest, s[0], [with]);
      assert s == [s[0]] + s[1..];
      assert Without(rest[0], first, second);
      OneMoreWithout(s[0], rest[0], first, second);
    }
  }

  lemma OneMoreWithout(c: char, part: string, first: char, second: char)
    requires Without(part, first, second) && (part != [] ==> !(c == first && part[0] == second))
    ensures Without([c] + part, first, second)
  {
  }

  lemma JoinBegins(parts: seq<string>, sep: string)
    requires parts != []
    ensures Join([""] + parts, sep) == sep + Join(parts, sep)
  {
    assert ([""] + parts)[1..] == parts;
    assert "" + sep + Join(parts, sep) == sep + Join(parts, sep);
  }

  lemma JoinGrows(parts: seq<string>, c: char, sep: string)
    requires parts != []
    ensures Join([[c] + parts[0]] + parts[1..], sep) == [c] + Join(parts, sep)
  {
    var grown := [[c] + parts[0]] + parts[1..];
    if |parts| > 1 {
      assert grown[1..] == parts[1..];
      assert [c] + parts[0] + sep + Join(parts[1..], sep) == [c] + (parts[0] + sep + Join(parts[1..], sep));
    }
  }

  // ---- int ----

  function Concat(parts: seq<string>): string {
    if parts == [] then [] else parts[0] + Concat(parts[1..])
  }

  /** The value of a decimal numeral. */
  function ValueOf(digits: string): nat {
    if digits == [] then 0
    else 10 * ValueOf(digits[..|digits|-1]) + if IsDigit(digits[|digits|-1]) then DigitValue(digits[|digits|-1]) else 0
  }

  /** Groups of digits joined by single underscores, and the value of all the digits. */
  ghost predicate IsNumeral(s: string, n: nat, groups: seq<string>) {
    && groups != [] && (forall g :: g in groups ==> g != [] && Digits(g))
    && s == Join(groups, "_") && n == ValueOf(Concat(groups))
  }

  /** Digits read one by one into an accumulator. */
  function Accumulate(acc: nat, digits: string): nat
    requires Digits(digits)
    decreases |digits|
  {
    if digits == [] then acc else Accumulate(10 * acc + DigitValue(digits[0]), digits[1..])
  }

  lemma {:induction false} AccumulateLast(acc: nat, digits: string)
    requires Digits(digits) && digits != []
    ensures Accumulate(acc, digits) == 10 * Accumulate(acc, digits[..|digits|-1]) + DigitValue(digits[|digits|-1])
    decreases |digits|
  {
    if |digits| > 1 {
      AccumulateLast(10 * acc + DigitValue(digits[0]), digits[1..]);
      assert digits[1..][..|digits|-2] == digits[..|digits|-1][1..];
    } else {
      assert digits[1..] == [];
    }
  }

  lemma {:induction false} AccumulateIsValue(digits: string)
    requires Digits(digits)
    ensures Accumulate(0, digits) == ValueOf(digits)
  {
    if digits != [] {
      AccumulateLast(0, digits);
      AccumulateIsValue(digits[..|digits|-1]);
    }
  }

  /** Groups of digits; behind a digit the first one may be empty. */
  predicate Grouped(groups: seq<string>, afterDigit: bool) {
    groups != [] && forall i :: 0 <= i < |groups| ==> Digits(groups[i]) && (groups[i] != [] || (i == 0 && afterDigit))
  }

  lemma {:induction false} ConcatDigits(groups: seq<string>)
    requires forall i :: 0 <= i < |groups| ==> Digits(groups[i])
    ensures Digits(Concat(groups))
  {
    if groups != [] {
      ConcatDigits(groups[1..]);
    }
  }

  lemma OneMoreDigit(c: char, rest: seq<string>)
    requires IsDigit(c) && Grouped(rest, true) && Digits(Concat(rest))
    ensures var groups := [[c] + rest[0]] + rest[1..];
            Grouped(groups, false) && Join(groups, "_") == [c] + Join(rest, "_") && Concat(groups) == [c] + Concat(rest)
  {
    hide IsDigit;
    var groups := [[c] + rest[0]] + rest[1..];
    JoinGrows(rest, c, "_");
    assert groups[1..] == rest[1..];
    assert [c] + rest[0] + Concat(rest[1..]) == [c] + (rest[0] + Concat(rest[1..]));
  }

  lemma OneMoreGroup(rest: seq<string>)
    requires Grouped(rest, false)
    ensures var groups := [""] + rest;
            Grouped(groups, true) && Join(groups, "_") == "_" + Join(rest, "_") && Concat(groups) == Concat(rest)
  {
    var groups := [""] + rest;
    assert groups[1..] == rest;
    assert "" + "_" + Join(rest, "_") == "_" + Join(rest, "_");
    assert "" + Concat(rest) == Concat(rest);
  }

  lemma {:induction false} ReadGroups(s: string, afterDigit: bool, acc: nat) returns (groups: seq<string>)
    requires ReadDigits(s, afterDigit, acc).Some?
    ensures Grouped(groups, afterDigit) && s == Join(groups, "_") && Digits(Concat(groups))
    ensures ReadDigits(s, afterDigit, acc) == Some(Accumulate(acc, Concat(groups)))
  {
    hide Grouped, Join, Concat;
    if s == [] {
      groups := [""];
      NoDigits();
    } else if IsDigit(s[0]) {
      var rest := ReadGroups(s[1..], true, 10 * acc + DigitValue(s[0]));
      SomeGroup(rest, true);
      groups := [[s[0]] + rest[0]] + rest[1..];
      OneMoreDigit(s[0], rest);
      WeakerStart(groups, afterDigit);
      assert s == [s[0]] + s[1..];
      assert Concat(groups)[1..] == Concat(rest);
    } else {
      var rest := ReadGroups(s[1..], false, acc);
      groups := [""] + rest;
      OneMoreGroup(rest);
      assert s == "_" + s[1..];
    }
  }

  lemma NoDigits()
    ensures Grouped([""], true) && Join([""], "_") == "" && Concat([""]) == ""
  {
    var one: seq<string> := [""];
    assert one[1..] == [];
  }

  lemma SomeGroup(groups: seq<string>, afterDigit: bool)
    requires Grouped(groups, afterDigit)
    ensures groups != [] && Digits(groups[0])
  {
  }

  lemma WeakerStart(groups: seq<string>, afterDigit: bool)
    requires Grouped(groups, false)
    ensures Grouped(groups, afterDigit)
  {
  }

  lemma {:induction false} GroupsAreRead(groups: seq<string>, afterDigit: bool, acc: nat)
    requires Grouped(groups, afterDigit)
    ensures Digits(Concat(groups))
    ensures ReadDigits(Join(groups, "_"), afterDigit, acc) == Some(Accumulate(acc, Concat(groups)))
    decreases |Join(groups, "_")|
  {
    ConcatDigits(groups);
    var s := Join(groups, "_");
    if groups[0] != [] {
      var c, less := groups[0][0], [groups[0][1..]] + groups[1..];
      assert Grouped(less, true) && IsDigit(c);
      assert groups[0] == [c] + less[0] && less[1..] == groups[1..];
      assert groups == [[c] + less[0]] + less[1..];
      ConcatDigits(less);
      OneMoreDigit(c, less);
      hide Grouped, Join, Concat;
      assert s[1..] == Join(less, "_") && Concat(groups)[1..] == Concat(less);
      GroupsAreRead(less, true, 10 * acc + DigitValue(c));
    } else if |groups| > 1 {
      var rest := groups[1..];
      assert Grouped(rest, false) && groups == [""] + rest;
      OneMoreGroup(rest);
      hide Grouped, Join, Concat;
      assert s[1..] == Join(rest, "_");
      GroupsAreRead(rest, false, acc);
    } else {
      assert groups == [""];
      NoDigits();
    }
  }

  lemma DigitsMean(s: string, n: nat)
    ensures ReadDigits(s, false, 0) == Some(n) <==> exists groups :: IsNumeral(s, n, groups)
  {
    hide ReadDigits, Join;
    if ReadDigits(s, false, 0) == Some(n) {
      var groups := ReadGroups(s, false, 0);
      AccumulateIsValue(Concat(groups));
      assert IsNumeral(s, n, groups);
    }
    if groups :| IsNumeral(s, n, groups) {
      GroupsAreRead(groups, false, 0);
      AccumulateIsValue(Concat(groups));
    }
  }

  function Signed(sign: string, n: nat): int { if sign == "-" then 0 - n else n }

  /** What `int` reads: white space, at most one sign, groups of digits joined by single
      underscores, white space. */
  ghost predicate Spells(text: string, v: int, before: string, sign: string, body: string, after: string) {
    && AllSpace(before) && AllSpace(after) && sign in {"", "+", "-"}
    && text == before + (sign + body) + after
    && exists n: nat, groups :: IsNumeral(body, n, groups) && v == Signed(sign, n)
  }

  lemma NumeralEnds(s: string, n: nat, groups: seq<string>)
    requires IsNumeral(s, n, groups)
    ensures s != [] && IsDigit(s[0]) && IsDigit(s[|s|-1])
  {
    JoinEnds(groups);
  }

  lemma {:induction false} JoinEnds(groups: seq<string>)
    requires groups != [] && forall g :: g in groups ==> g != [] && Digits(g)
    ensures var s := Join(groups, "_"); s != [] && IsDigit(s[0]) && IsDigit(s[|s|-1])
  {
    hide IsDigit;
    var first := groups[0];
    assert first in groups && IsDigit(first[0]) && IsDigit(first[|first|-1]);
    if |groups| > 1 {
      assert forall g :: g in groups[1..] ==> g in groups;
      JoinEnds(groups[1..]);
      var s, rest := Join(groups, "_"), Join(groups[1..], "_");
      assert s == first + "_" + rest;
      assert s[|s|-1] == rest[|rest|-1] && s[0] == first[0];
    }
  }

  /** The stripped text read by its first character. */
  function ReadSigned(s: string): Option<int>
    requires s != []
  {
    if s[0] == '-' || s[0] == '+' then
      match ReadDigits(s[1..], false, 0)
      case Some(n) => Some(if s[0] == '-' then 0 - n else n as int)
      case None => None
    else
      match ReadDigits(s, false, 0)
      case Some(n) => Some(n)
      case None => None
  }

  ghost predicate SignedNumeral(s: string, v: int, sign: string, body: string, n: nat, groups: seq<string>) {
    sign in {"", "+", "-"} && s == sign + body && IsNumeral(body, n, groups) && v == Signed(sign, n)
  }

  lemma OwnSign(s: string, sign: string, body: string)
    requires sign in {"", "+", "-"} && s == sign + body && body != [] && IsDigit(body[0])
    ensures s[0] == '-' ==> sign == "-" && body == s[1..]
    ensures s[0] == '+' ==> sign == "+" && body == s[1..]
    ensures s[0] != '-' && s[0] != '+' ==> sign == "" && body == s
  {
    assert s[0] == if sign == "" then body[0] else sign[0];
    assert sign != "" ==> s[1..] == body;
  }

  lemma ParseSigned(s: string, v: int)
    requires s != []
    ensures ReadSigned(s) == Some(v) <==> exists sign, body, n: nat, groups :: SignedNumeral(s, v, sign, body, n, groups)
  {
    hide ReadDigits, IsNumeral;
    var signed := s[0] == '-' || s[0] == '+';
    var own, rest := if signed then [s[0]] else "", if signed then s[1..] else s;
    assert s == own + rest && own in {"", "+", "-"};
    if ReadSigned(s) == Some(v) {
      var n := ReadDigits(rest, false, 0).value;
      DigitsMean(rest, n);
      var groups :| IsNumeral(rest, n, groups);
      assert SignedNumeral(s, v, own, rest, n, groups);
    }
    if sign, body, n: nat, groups :| SignedNumeral(s, v, sign, body, n, groups) {
      NumeralEnds(body, n, groups);
      OwnSign(s, sign, body);
      DigitsMean(rest, n);
    }
  }

  /** `int(text)`: which texts it reads, and as which numbers. In ASCII text the four
      separators that `strip` takes for space are not accepted. */
  lemma ParseIntMeans(text: string, v: int)
    ensures ParseInt(text) == Some(v) <==>
              !((forall c :: c in text ==> c < '\U{80}') && exists c :: c in text && '\U{1C}' <= c <= '\U{1F}')
              && exists before, sign, body, after :: Spells(text, v, before, sign, body, after)
  {
    hide ReadDigits, Strip, IsNumeral, IsSpace, AllSpace, Signed;
    var s := Strip(text);
    var x, y := StripParts(text);
    Ascii(text);
    if s != [] {
      ParseSigned(s, v);
      if sign, body, n: nat, groups :| SignedNumeral(s, v, sign, body, n, groups) {
        assert Spells(text, v, x, sign, body, y);
      }
    }
    if before, sign, body, after :| Spells(text, v, before, sign, body, after) {
      var n: nat, groups :| IsNumeral(body, n, groups) && v == Signed(sign, n);
      NumeralEnds(body, n, groups);
      SignedEnds(sign, body);
      Strips(before, sign + body, after);
      assert SignedNumeral(s, v, sign, body, n, groups);
    }
    ParsedIsSigned(text);
  }

  lemma ParsedIsSigned(text: string)
    ensures ParseInt(text) == (if Strip(text) == [] || (IsAscii(text) && exists i :: 0 <= i < |text| && IsSeparator(text[i])) then None
                               else ReadSigned(Strip(text)))
  {
    hide Strip, ReadDigits, IsAscii;
  }

  lemma Ascii(text: string)
    ensures IsAscii(text) <==> forall c :: c in text ==> c < '\U{80}'
    ensures (exists i :: 0 <= i < |text| && IsSeparator(text[i])) <==> exists c :: c in text && '\U{1C}' <= c <= '\U{1F}'
  {
    if !IsAscii(text) {
      var i :| 0 <= i < |text| && text[i] >= '\U{80}';
      assert text[i] in text;
    }
    if i :| 0 <= i < |text| && IsSeparator(text[i]) {
      assert text[i] in text;
    }
    if c :| c in text && '\U{1C}' <= c <= '\U{1F}' {
      var i :| 0 <= i < |text| && text[i] == c;
      assert IsSeparator(text[i]);
    }
  }

  lemma SignedEnds(sign: string, body: string)
    requires sign in {"", "+", "-"} && body != [] && IsDigit(body[0]) && IsDigit(body[|body|-1])
    ensures var s := sign + body; s != [] && !IsSpace(s[0]) && !IsSpace(s[|s|-1])
  {
  }

  // ---- Python's list index ----

  /** Index `i` of a list of length n is entry `i`, or entry `i + n` counted from the end;
      every other index raises. */
  lemma ItemAtMeans(items: seq<Json>, index: int, item: Json)
    ensures ItemAt(items, index) == Some(item) <==>
              exists k :: 0 <= k < |items| && (index == k || index == k - |items|) && items[k] == item
  {
    if -|items| <= index < 0 {
      assert items[|items| + index] == items[index + |items|];
    }
  }
}
