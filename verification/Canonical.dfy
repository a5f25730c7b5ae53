/** `canonical_bytes` on string-keyed JSON trees: compact, keys sorted, strings
    escaped per section 7 of RFC 8259 in the shortest form that Python writes. */
module Canonical {
  import opened Orders
  import opened Results
  import opened Text
  import opened Json

  // ---- Sorting the keys at every level ----

  predicate KeyLeq(a: Member, b: Member) { StringLeq(a.key, b.key) }

  function Normalize(j: Json): Json
    decreases j, 0
  {
    match j
    case JArray(items) => JArray(NormalizeItems(items))
    case JObject(members) => JObject(SortBy(KeyLeq, NormalizeMembers(members)))
    case _ => j
  }

  function NormalizeItems(items: seq<Json>): (r: seq<Json>)
    ensures |r| == |items|
    decreases items, 0
  {
    if items == [] then [] else [Normalize(items[0])] + NormalizeItems(items[1..])
  }

  function NormalizeMembers(members: seq<Member>): (r: seq<Member>)
    ensures |r| == |members|
    decreases members, 0
  {
    if members == [] then []
    else [Member(members[0].key, Normalize(members[0].value))] + NormalizeMembers(members[1..])
  }

  // ---- Text ----

  function HexDigit(d: nat): (c: char)
    requires d < 16
  {
    if d < 10 then DigitChar(d) else ('a' as int + (d - 10)) as char
  }

  function EscapeChar(c: char): (r: string)
    ensures r != []
  {
    if c == '"' then "\\\""
    else if c == '\\' then "\\\\"
    else if c == '\n' then "\\n"
    else if c == '\r' then "\\r"
    else if c == '\t' then "\\t"
    else if c == '\U{0C}' then "\\f"
    else if c == '\U{08}' then "\\b"
    else if c < ' ' then ['\\', 'u', '0', '0', HexDigit(c as int / 16), HexDigit(c as int % 16)]
    else [c]
  }

  function EscapeText(s: string): string {
    if s == [] then [] else EscapeChar(s[0]) + EscapeText(s[1..])
  }

  function Quote(s: string): string { "\"" + EscapeText(s) + "\"" }

  function PrintInt(n: int): string {
    if n < 0 then "-" + Decimal(-n) else Decimal(n)
  }

  function Print(j: Json): string
    decreases j, 0
  {
    match j
    case JNull => "null"
    case JBool(b) => if b then "true" else "false"
    case JInt(n) => PrintInt(n)
    case JString(s) => Quote(s)
    case JArray(items) => "[" + PrintItems(items) + "]"
    case JObject(members) => "{" + PrintMembers(members) + "}"
  }

  function PrintItems(items: seq<Json>): string
    decreases items, 0
  {
    if items == [] then ""
    else if |items| == 1 then Print(items[0])
    else Print(items[0]) + "," + PrintItems(items[1..])
  }

  function PrintMember(m: Member): string
    decreases m, 0
  {
    Quote(m.key) + ":" + Print(m.value)
  }

  function PrintMembers(members: seq<Member>): string
    decreases members, 0
  {
    if members == [] then ""
    else if |members| == 1 then PrintMember(members[0])
    else PrintMember(members[0]) + "," + PrintMembers(members[1..])
  }

  function CanonicalText(j: Json): string { Print(Normalize(j)) }

  // ---- The escapes are those of RFC 8259 ----

  function HexValue(c: char): Option<nat> {
    if IsDigit(c) then Some(DigitValue(c))
    else if 'a' <= c <= 'f' then Some(c as int - 'a' as int + 10)
    else if 'A' <= c <= 'F' then Some(c as int - 'A' as int + 10)
    else None
  }

  function FourHex(s: string): Option<nat>
    requires |s| >= 4
  {
    match (HexValue(s[0]), HexValue(s[1]), HexValue(s[2]), HexValue(s[3]))
    case (Some(a), Some(b), Some(c), Some(d)) => Some(((a * 16 + b) * 16 + c) * 16 + d)
    case _ => None
  }

  /** The two-character escapes of section 7 of RFC 8259. */
  function ShortEscape(c: char): Option<char> {
    match c
    case '"' => Some('"')
    case '\\' => Some('\\')
    case '/' => Some('/')
    case 'b' => Some('\U{08}')
    case 'f' => Some('\U{0C}')
    case 'n' => Some('\U{0A}')
    case 'r' => Some('\U{0D}')
    case 't' => Some('\U{09}')
    case _ => None
  }

  /** The text of an RFC 8259 string, read up to its closing quotation mark;
      surrogate pairs are not read. */
  function ReadString(s: string): (r: Option<(string, string)>)
    ensures r.Some? ==> |r.value.1| < |s|
    decreases |s|
  {
    if s == [] || s[0] < ' ' then None
    else if s[0] == '"' then Some(([], s[1..]))
    else if s[0] != '\\' then
      match ReadString(s[1..])
      case Some((text, rest)) => Some(([s[0]] + text, rest))
      case None => None
    else if |s| >= 6 && s[1] == 'u' then
      match (FourHex(s[2..6]), ReadString(s[6..]))
      case (Some(code), Some((text, rest))) => if code < 0xD800 then Some(([code as char] + text, rest)) else None
      case _ => None
    else if |s| >= 2 && ShortEscape(s[1]).Some? then
      match ReadString(s[2..])
      case Some((text, rest)) => Some(([ShortEscape(s[1]).value] + text, rest))
      case None => None
    else None
  }

  lemma ReadPlain(c: char, s: string)
    requires ReadString(s).Some? && c >= ' ' && c != '"' && c != '\\'
    ensures ReadString([c] + s) == Some(([c] + ReadString(s).value.0, ReadString(s).value.1))
  {
    assert ([c] + s)[1..] == s;
  }

  lemma ReadShort(k: char, s: string)
    requires ReadString(s).Some? && k != 'u' && ShortEscape(k).Some?
    ensures ReadString(['\\', k] + s) == Some(([ShortEscape(k).value] + ReadString(s).value.0, ReadString(s).value.1))
  {
    assert (['\\', k] + s)[2..] == s;
  }

  lemma ReadHex(hex: string, s: string)
    requires ReadString(s).Some? && |hex| == 4 && FourHex(hex).Some? && FourHex(hex).value < 0xD800
    ensures ReadString(['\\', 'u'] + hex + s) == Some(([FourHex(hex).value as char] + ReadString(s).value.0, ReadString(s).value.1))
  {
    hide FourHex;
    var e := ['\\', 'u'] + hex + s;
    assert e[2..6] == hex && e[6..] == s;
  }

  lemma ReadOneCharacter(c: char, s: string)
    requires ReadString(s).Some?
    ensures ReadString(EscapeChar(c) + s) == Some(([c] + ReadString(s).value.0, ReadString(s).value.1))
  {
    hide ReadString;
    var e := EscapeChar(c);
    if |e| == 1 {
      ReadPlain(c, s);
    } else if |e| == 2 {
      ReadShort(e[1], s);
      assert e == ['\\', e[1]];
    } else {
      HexOfControl(c);
      ReadHex(['0', '0', HexDigit(c as int / 16), HexDigit(c as int % 16)], s);
      assert e == ['\\', 'u'] + ['0', '0', HexDigit(c as int / 16), HexDigit(c as int % 16)];
    }
  }

  lemma HexOfControl(c: char)
    requires c < ' '
    ensures FourHex(['0', '0', HexDigit(c as int / 16), HexDigit(c as int % 16)]) == Some(c as int)
  {
  }

  /** Reading a quoted text by RFC 8259 gives the text back and stops after it. */
  lemma {:induction false} QuoteIsReadBack(s: string, rest: string)
    ensures ReadString((Quote(s) + rest)[1..]) == Some((s, rest))
  {
    QuoteBody(s, rest);
    if s == [] {
      assert "\"" + rest == EscapeText(s) + "\"" + rest;
      assert ("\"" + rest)[1..] == rest;
    } else {
      hide EscapeChar, ReadString, Quote;
      QuoteBody(s[1..], rest);
      QuoteIsReadBack(s[1..], rest);
      ReadOneCharacter(s[0], EscapeText(s[1..]) + "\"" + rest);
      Reassociate(EscapeChar(s[0]), EscapeText(s[1..]), "\"", rest);
      assert s == [s[0]] + s[1..];
    }
  }

  lemma QuoteBody(s: string, rest: string)
    ensures (Quote(s) + rest)[1..] == EscapeText(s) + "\"" + rest
  {
    hide EscapeText;
  }

  /** Every character is written in the shortest spelling that section 7 of RFC 8259
      reads as it, and hexadecimal digits are written in lower case. */
  lemma EscapeIsShortest(c: char, spelling: string)
    requires ReadString(spelling + "\"") == Some(([c], ""))
    ensures |EscapeChar(c)| <= |spelling|
    ensures forall i :: 0 <= i < |EscapeChar(c)| && 'A' <= EscapeChar(c)[i] <= 'Z' ==> EscapeChar(c)[i] == c
  {
    LowerCase(c);
    if |spelling| < 6 {
      ShortSpellings(spelling + "\"", c);
    }
  }

  lemma OneAndMore(x: char, text: string, c: char)
    requires [x] + text == [c]
    ensures x == c && text == ""
  {
    assert ([x] + text)[0] == x && |[x] + text| == 1 + |text|;
  }

  lemma PlainStart(s: string, c: char)
    requires ReadString(s) == Some(([c], "")) && s != [] && s[0] != '\\'
    ensures s[0] == c && c >= ' ' && c != '"' && ReadString(s[1..]) == Some(("", ""))
  {
    hide FourHex, ShortEscape;
    var rest := ReadString(s[1..]);
    if s[0] >= ' ' && s[0] != '"' && rest.Some? {
      OneAndMore(s[0], rest.value.0, c);
    }
  }

  lemma EscapedStart(s: string, c: char)
    requires ReadString(s) == Some(([c], "")) && s != [] && s[0] == '\\' && |s| < 7
    ensures |s| >= 3 && ShortEscape(s[1]) == Some(c)
  {
    hide FourHex, ShortEscape;
    HexNeedsMore(s);
    assert |s| >= 2 && ShortEscape(s[1]).Some? && ReadString(s[2..]).Some?;
    ReadsSomething(s[2..]);
    OneAndMore(ShortEscape(s[1]).value, ReadString(s[2..]).value.0, c);
  }

  lemma HexNeedsMore(s: string)
    ensures |s| == 6 && s[0] == '\\' && s[1] == 'u' ==> ReadString(s).None?
  {
    hide FourHex, ShortEscape;
    assert |s| == 6 ==> s[6..] == "";
  }

  /** What a text of less than seven characters can say about one character. */
  lemma ShortSpellings(s: string, c: char)
    requires ReadString(s) == Some(([c], "")) && |s| < 7
    ensures |EscapeChar(c)| < |s|
  {
    hide EscapeChar, ReadString;
    ReadsSomething(s);
    if s[0] != '\\' {
      PlainStart(s, c);
      NothingRead(s[1..]);
      PlainSpelling(c);
    } else {
      EscapedStart(s, c);
      ShortSpelling(s[1], c);
    }
  }

  lemma ReadsSomething(s: string)
    requires ReadString(s).Some?
    ensures s != []
  {
  }

  lemma PlainSpelling(c: char)
    requires c >= ' ' && c != '"' && c != '\\'
    ensures |EscapeChar(c)| == 1
  {
  }

  lemma NothingRead(s: string)
    requires ReadString(s).Some? && ReadString(s).value == ("", "")
    ensures s == "\""
  {
  }

  lemma ShortSpelling(k: char, c: char)
    requires ShortEscape(k) == Some(c)
    ensures |EscapeChar(c)| <= 2
  {
  }

  lemma LowerCase(c: char)
    ensures |EscapeChar(c)| <= 6
    ensures forall i :: 0 <= i < |EscapeChar(c)| && 'A' <= EscapeChar(c)[i] <= 'Z' ==> EscapeChar(c)[i] == c
  {
  }

  // ---- A reader of compact JSON ----

  function LeadingDigits(s: string): (n: nat)
    ensures n <= |s|
  {
    if s == [] || !IsDigit(s[0]) then 0 else 1 + LeadingDigits(s[1..])
  }

  function NumeralValue(s: string): nat {
    if s == [] then 0
    else 10 * NumeralValue(s[..|s|-1]) + if IsDigit(s[|s|-1]) then DigitValue(s[|s|-1]) else 0
  }

  /** The integers of section 6 of RFC 8259: digits without superfluous zeros. */
  function ReadNatural(s: string): (r: Option<(nat, string)>)
    ensures r.Some? ==> |r.value.1| < |s|
  {
    var n := LeadingDigits(s);
    if n == 0 || (s[0] == '0' && n > 1) then None else Some((NumeralValue(s[..n]), s[n..]))
  }

  /** A value of RFC 8259 without white space and fractions, and the text behind it. */
  function Read(s: string): (r: Option<(Json, string)>)
    ensures r.Some? ==> |r.value.1| < |s|
    decreases |s|, 1
  {
    if "null" <= s then Some((JNull, s[4..]))
    else if "true" <= s then Some((JBool(true), s[4..]))
    else if "false" <= s then Some((JBool(false), s[5..]))
    else if s == [] then None
    else if s[0] == '"' then
      match ReadString(s[1..])
      case Some((text, rest)) => Some((JString(text), rest))
      case None => None
    else if s[0] == '[' then
      if "[]" <= s then Some((JArray([]), s[2..]))
      else
        match ReadItems(s[1..])
        case Some((items, rest)) => Some((JArray(items), rest))
        case None => None
    else if s[0] == '{' then
      if "{}" <= s then Some((JObject([]), s[2..]))
      else
        match ReadMembers(s[1..])
        case Some((members, rest)) => Some((JObject(members), rest))
        case None => None
    else if s[0] == '-' then
      match ReadNatural(s[1..])
      case Some((n, rest)) => Some((JInt(0 - n), rest))
      case None => None
    else
      match ReadNatural(s)
      case Some((n, rest)) => Some((JInt(n), rest))
      case None => None
  }

  /** The elements of an array up to its bracket. */
  function ReadItems(s: string): (r: Option<(seq<Json>, string)>)
    ensures r.Some? ==> |r.value.1| < |s|
    decreases |s|, 2
  {
    match Read(s)
    case None => None
    case Some((value, rest)) =>
      if rest != [] && rest[0] == ']' then Some(([value], rest[1..]))
      else if rest != [] && rest[0] == ',' then
        match ReadItems(rest[1..])
        case Some((items, after)) => Some(([value] + items, after))
        case None => None
      else None
  }

  function ReadMember(s: string): (r: Option<(Member, string)>)
    ensures r.Some? ==> |r.value.1| < |s|
    decreases |s|, 2
  {
    if s == [] || s[0] != '"' then None
    else
      match ReadString(s[1..])
      case None => None
      case Some((key, rest)) =>
        if rest == [] || rest[0] != ':' then None
        else
          match Read(rest[1..])
          case Some((value, after)) => Some((Member(key, value), after))
          case None => None
  }

  /** The members of an object up to its brace. */
  function ReadMembers(s: string): (r: Option<(seq<Member>, string)>)
    ensures r.Some? ==> |r.value.1| < |s|
    decreases |s|, 3
  {
    match ReadMember(s)
    case None => None
    case Some((member, rest)) =>
      if rest != [] && rest[0] == '}' then Some(([member], rest[1..]))
      else if rest != [] && rest[0] == ',' then
        match ReadMembers(rest[1..])
        case Some((members, after)) => Some(([member] + members, after))
        case None => None
      else None
  }

  /** What can follow a printed value. */
  predicate Delimited(s: string) { s == [] || s[0] in {',', ']', '}'} }

  lemma {:induction false} LeadingDigitsOf(a: string, x: string)
    requires Digits(a) && (x == [] || !IsDigit(x[0]))
    ensures LeadingDigits(a + x) == |a|
  {
    if a == [] {
      assert a + x == x;
    } else {
      LeadingDigitsOf(a[1..], x);
      assert (a + x)[1..] == a[1..] + x;
    }
  }

  lemma {:induction false} DecimalValue(n: nat)
    ensures NumeralValue(Decimal(n)) == n
    ensures Decimal(n)[0] == '0' ==> |Decimal(n)| == 1
    ensures n > 0 ==> Decimal(n)[0] != '0'
  {
    if n >= 10 {
      DecimalValue(n / 10);
      assert Decimal(n)[..|Decimal(n)|-1] == Decimal(n / 10);
    }
  }

  lemma NaturalIsReadBack(n: nat, x: string)
    requires Delimited(x)
    ensures ReadNatural(Decimal(n) + x) == Some((n, x))
  {
    hide NumeralValue, Decimal;
    DecimalValue(n);
    LeadingDigitsOf(Decimal(n), x);
    var s := Decimal(n) + x;
    assert s[..|Decimal(n)|] == Decimal(n) && s[|Decimal(n)|..] == x;
  }

  lemma IntIsReadBack(n: int, x: string)
    requires Delimited(x)
    ensures Read(PrintInt(n) + x) == Some((JInt(n), x))
  {
    hide Decimal, ReadNatural;
    if n < 0 {
      NaturalIsReadBack(-n, x);
      assert (PrintInt(n) + x)[0] == '-' && (PrintInt(n) + x)[1..] == Decimal(-n) + x;
    } else {
      NaturalIsReadBack(n, x);
      assert IsDigit((Decimal(n) + x)[0]);
    }
  }

  lemma LiteralIsReadBack(j: Json, x: string)
    requires j.JNull? || j.JBool?
    ensures Read(Print(j) + x) == Some((j, x))
  {
    var s := Print(j) + x;
    assert Print(j) <= s && s[|Print(j)|..] == x;
    assert "null" <= s ==> s[0] == 'n';
    assert "true" <= s ==> s[0] == 't';
  }

  /** Reading a printed value gives the value back and stops behind it. */
  lemma {:induction false} PrintedIsReadBack(j: Json, x: string)
    requires Delimited(x)
    ensures Read(Print(j) + x) == Some((j, x))
    decreases j, 1
  {
    match j
    case JInt(n) => IntIsReadBack(n, x);
    case JString(t) =>
      QuoteIsReadBack(t, x);
      QuoteFirst(t, x);
    case JArray(items) => ArrayIsReadBack(items, x);
    case JObject(members) => ObjectIsReadBack(members, x);
    case _ => LiteralIsReadBack(j, x);
  }

  lemma QuoteFirst(t: string, x: string)
    ensures var s := Quote(t) + x; s != [] && s[0] == '"'
  {
    hide EscapeText;
  }

  lemma PrintFirst(j: Json)
    ensures Print(j) != [] && Print(j)[0] != ']'
  {
    hide EscapeText, Decimal, PrintItems, PrintMembers;
    assert j.JInt? && j.n >= 0 ==> IsDigit(Decimal(j.n)[0]);
  }

  lemma Reassociate(a: string, b: string, c: string, d: string)
    ensures a + b + c + d == a + (b + c + d)
  {
  }

  function ItemsTail(items: seq<Json>): string {
    if items == [] then "" else "," + PrintItems(items)
  }

  lemma AfterComma(text: string, close: string, x: string)
    ensures var tail := "," + text + close + x; tail[0] == ',' && tail[1..] == text + close + x
  {
  }

  lemma ItemsSplit(items: seq<Json>)
    requires items != []
    ensures PrintItems(items) == Print(items[0]) + ItemsTail(items[1..])
  {
    hide Print;
  }

  lemma ItemsTailShape(items: seq<Json>, x: string)
    ensures var tail := ItemsTail(items) + "]" + x;
            if items == [] then tail == "]" + x && tail[0] == ']' && tail[1..] == x
            else tail[0] == ',' && tail[1..] == PrintItems(items) + "]" + x
  {
    hide PrintItems;
    AfterComma(PrintItems(items), "]", x);
    assert items == [] ==> ItemsTail(items) + "]" + x == "]" + x;
  }

  lemma ReadItemsStep(s: string, item: Json, tail: string)
    requires Read(s) == Some((item, tail)) && tail != []
    ensures tail[0] == ']' ==> ReadItems(s) == Some(([item], tail[1..]))
    ensures tail[0] == ',' && ReadItems(tail[1..]).Some? ==>
              ReadItems(s) == Some(([item] + ReadItems(tail[1..]).value.0, ReadItems(tail[1..]).value.1))
  {
    hide Read;
  }

  lemma {:induction false} ItemsAreReadBack(items: seq<Json>, x: string)
    requires items != []
    ensures ReadItems(PrintItems(items) + "]" + x) == Some((items, x))
    decreases items, 0
  {
    hide Print, PrintItems, Read, ReadItems, ItemsTail;
    var tail := ItemsTail(items[1..]) + "]" + x;
    ItemsSplit(items);
    Reassociate(Print(items[0]), ItemsTail(items[1..]), "]", x);
    ItemsTailShape(items[1..], x);
    PrintedIsReadBack(items[0], tail);
    assert PrintItems(items) + "]" + x == Print(items[0]) + tail;
    ReadItemsStep(Print(items[0]) + tail, items[0], tail);
    assert |items| == 1 ==> items[1..] == [];
    if |items| > 1 {
      ItemsAreReadBack(items[1..], x);
    }
    assert items == [items[0]] + items[1..];
    assert |items| == 1 ==> items == [items[0]];
    assert ReadItems(Print(items[0]) + tail) == Some((items, x));
  }

  lemma {:induction false} ArrayIsReadBack(items: seq<Json>, x: string)
    ensures Read(Print(JArray(items)) + x) == Some((JArray(items), x))
    decreases items, 1
  {
    hide PrintItems, ReadItems, ReadMembers;
    var s := Print(JArray(items)) + x;
    if items == [] {
      EmptyPrints();
      assert s == "[]" + x;
      assert s[2..] == x;
    } else {
      ItemsAreReadBack(items, x);
      ItemsSplit(items);
      PrintFirst(items[0]);
      assert s[1..] == PrintItems(items) + "]" + x;
      assert s[1] == Print(items[0])[0];
    }
  }

  lemma EmptyPrints()
    ensures PrintItems([]) == "" && PrintMembers([]) == ""
  {
  }

  lemma {:induction false} MemberIsReadBack(m: Member, x: string)
    requires Delimited(x)
    ensures ReadMember(PrintMember(m) + x) == Some((m, x))
    decreases m, 1
  {
    hide Print, Quote, Read, ReadString;
    var after := ":" + (Print(m.value) + x);
    Regroup(Quote(m.key), Print(m.value), x);
    QuoteFirst(m.key, after);
    QuoteIsReadBack(m.key, after);
    assert after[1..] == Print(m.value) + x;
    PrintedIsReadBack(m.value, x);
  }

  lemma Regroup(key: string, value: string, x: string)
    ensures key + ":" + value + x == key + (":" + (value + x))
  {
  }

  function MembersTail(members: seq<Member>): string {
    if members == [] then "" else "," + PrintMembers(members)
  }

  lemma MembersSplit(members: seq<Member>)
    requires members != []
    ensures PrintMembers(members) == PrintMember(members[0]) + MembersTail(members[1..])
  {
    hide PrintMember;
  }

  lemma MembersTailShape(members: seq<Member>, x: string)
    ensures var tail := MembersTail(members) + "}" + x;
            if members == [] then tail == "}" + x && tail[0] == '}' && tail[1..] == x
            else tail[0] == ',' && tail[1..] == PrintMembers(members) + "}" + x
  {
    hide PrintMembers;
    AfterComma(PrintMembers(members), "}", x);
    assert members == [] ==> MembersTail(members) + "}" + x == "}" + x;
  }

  lemma ReadMembersStep(s: string, member: Member, tail: string)
    requires ReadMember(s) == Some((member, tail)) && tail != []
    ensures tail[0] == '}' ==> ReadMembers(s) == Some(([member], tail[1..]))
    ensures tail[0] == ',' && ReadMembers(tail[1..]).Some? ==>
              ReadMembers(s) == Some(([member] + ReadMembers(tail[1..]).value.0, ReadMembers(tail[1..]).value.1))
  {
    hide ReadMember;
  }

  lemma {:induction false} MembersAreReadBack(members: seq<Member>, x: string)
    requires members != []
    ensures ReadMembers(PrintMembers(members) + "}" + x) == Some((members, x))
    decreases members, 0
  {
    hide PrintMember, PrintMembers, ReadMember, ReadMembers, MembersTail;
    var tail := MembersTail(members[1..]) + "}" + x;
    MembersSplit(members);
    Reassociate(PrintMember(members[0]), MembersTail(members[1..]), "}", x);
    MembersTailShape(members[1..], x);
    MemberIsReadBack(members[0], tail);
    assert PrintMembers(members) + "}" + x == PrintMember(members[0]) + tail;
    ReadMembersStep(PrintMember(members[0]) + tail, members[0], tail);
    assert |members| == 1 ==> members[1..] == [];
    if |members| > 1 {
      MembersAreReadBack(members[1..], x);
    }
    assert members == [members[0]] + members[1..];
    assert |members| == 1 ==> members == [members[0]];
    assert ReadMembers(PrintMember(members[0]) + tail) == Some((members, x));
  }

  lemma {:induction false} ObjectIsReadBack(members: seq<Member>, x: string)
    ensures Read(Print(JObject(members)) + x) == Some((JObject(members), x))
    decreases members, 1
  {
    hide PrintMembers, ReadMembers, ReadItems;
    var s := Print(JObject(members)) + x;
    if members == [] {
      EmptyPrints();
      assert s == "{}" + x;
      assert s[2..] == x;
    } else {
      MembersAreReadBack(members, x);
      MembersSplit(members);
      MemberStartsWithQuote(members[0]);
      assert s[1..] == PrintMembers(members) + "}" + x;
      assert s[1] == PrintMember(members[0])[0];
    }
  }

  lemma MemberStartsWithQuote(m: Member)
    ensures PrintMember(m) != [] && PrintMember(m)[0] == '"'
  {
    hide Print, EscapeText;
  }

  /** Printing is unambiguous: whatever delimited text follows, equal texts come from
      equal trees. */
  lemma PrintUnambiguous(a: Json, b: Json, x: string, y: string)
    requires Print(a) + x == Print(b) + y && Delimited(x) && Delimited(y)
    ensures a == b && x == y
  {
    hide Print, Read, Delimited;
    PrintedIsReadBack(a, x);
    PrintedIsReadBack(b, y);
  }

  // ---- Equality of the values, whatever the insertion order ----

  /** Equality of loaded JSON values: dictionaries compare by key. */
  predicate SameValue(a: Json, b: Json)
    decreases a
  {
    match a
    case JArray(items) =>
      b.JArray? && |items| == |b.items| && forall i :: 0 <= i < |items| ==> SameValue(items[i], b.items[i])
    case JObject(members) =>
      && b.JObject?
      && (forall k :: k in Keys(b.members) ==> k in Keys(members))
      && forall i :: 0 <= i < |members| ==>
           Lookup(b.members, members[i].key).Some? && SameValue(members[i].value, Lookup(b.members, members[i].key).value)
    case _ => a == b
  }

  lemma {:induction false} NormalizeItemsAt(items: seq<Json>, i: nat)
    requires i < |items|
    ensures NormalizeItems(items)[i] == Normalize(items[i])
  {
    if i > 0 {
      NormalizeItemsAt(items[1..], i - 1);
    }
  }

  lemma {:induction false} NormalizeMembersAt(members: seq<Member>, i: nat)
    requires i < |members|
    ensures NormalizeMembers(members)[i] == Member(members[i].key, Normalize(members[i].value))
  {
    if i > 0 {
      NormalizeMembersAt(members[1..], i - 1);
    }
  }

  lemma NormalizeMembersKeys(members: seq<Member>)
    ensures Keys(NormalizeMembers(members)) == Keys(members)
    ensures NoDup(Keys(members)) ==> NoDup(NormalizeMembers(members)) && Separates(KeyLeq, NormalizeMembers(members))
    ensures Preorder(KeyLeq)
  {
    StringOrder();
    var normal := NormalizeMembers(members);
    forall i | 0 <= i < |members| ensures normal[i].key == members[i].key {
      NormalizeMembersAt(members, i);
    }
    assert Preorder(KeyLeq) by {
      forall a, b ensures KeyLeq(a, b) || KeyLeq(b, a) {
        assert StringLeq(a.key, b.key) || StringLeq(b.key, a.key);
      }
      forall a, b, c | KeyLeq(a, b) && KeyLeq(b, c) ensures KeyLeq(a, c) {
        assert StringLeq(a.key, b.key) && StringLeq(b.key, c.key);
      }
    }
    if NoDup(Keys(members)) {
      forall i, j | 0 <= i < j < |normal| ensures normal[i].key != normal[j].key {
        assert Keys(members)[i] != Keys(members)[j];
      }
    }
  }

  lemma {:induction false} SameValueNormalizes(a: Json, b: Json)
    requires Dictionaries(a) && Dictionaries(b) && SameValue(a, b)
    ensures Normalize(a) == Normalize(b)
    decreases a
  {
    match a
    case JArray(items) =>
      forall i | 0 <= i < |items| ensures NormalizeItems(items)[i] == NormalizeItems(b.items)[i] {
        NormalizeItemsAt(items, i);
        NormalizeItemsAt(b.items, i);
        SameValueNormalizes(items[i], b.items[i]);
      }
    case JObject(members) =>
      forall i | 0 <= i < |members|
        ensures NormalizeMembers(members)[i] in NormalizeMembers(b.members)
      {
        NormalizeMembersAt(members, i);
        var j := LookupIndex(b.members, members[i].key);
        NormalizeMembersAt(b.members, j);
        SameValueNormalizes(members[i].value, b.members[j].value);
      }
      assert forall m :: m in NormalizeMembers(members) ==> m in NormalizeMembers(b.members);
      SameMembersNormalize(members, b.members);
    case _ =>
  }

  lemma SameKeySameMember(members: seq<Member>, a: Member, b: Member)
    requires Separates(KeyLeq, members) && a in members && b in members && a.key == b.key
    ensures a == b
  {
    LexReflexive(a.key);
    assert KeyLeq(a, b) && KeyLeq(b, a);
  }

  /** If `y` has no key beyond those of `x`, entries shared one way are shared both ways. */
  lemma SharedBothWays(x: seq<Member>, y: seq<Member>)
    requires Separates(KeyLeq, y) && (forall m :: m in x ==> m in y) && forall k :: k in Keys(y) ==> k in Keys(x)
    ensures forall m :: m in y ==> m in x
  {
    hide Separates, KeyLeq;
    forall m | m in y ensures m in x {
      var j :| 0 <= j < |y| && y[j] == m;
      assert Keys(y)[j] == m.key && m.key in Keys(x);
      var i :| 0 <= i < |x| && Keys(x)[i] == m.key;
      assert x[i] in x;
      SameKeySameMember(y, x[i], m);
    }
  }

  lemma KeysOfShared(x: seq<Member>, y: seq<Member>)
    requires forall m :: m in y ==> m in x
    ensures forall k :: k in Keys(y) ==> k in Keys(x)
  {
    forall k | k in Keys(y) ensures k in Keys(x) {
      var j :| 0 <= j < |y| && y[j].key == k;
      assert y[j] in y;
      var i :| 0 <= i < |x| && x[i] == y[j];
      assert Keys(x)[i] == k;
    }
  }

  lemma SameMembersNormalize(a: seq<Member>, b: seq<Member>)
    requires NoDup(Keys(a)) && NoDup(Keys(b)) && forall k :: k in Keys(b) ==> k in Keys(a)
    requires forall m :: m in NormalizeMembers(a) ==> m in NormalizeMembers(b)
    ensures SortBy(KeyLeq, NormalizeMembers(a)) == SortBy(KeyLeq, NormalizeMembers(b))
  {
    hide NormalizeMembers, KeyLeq, Separates, SortBy, Preorder, NoDup, Keys;
    NormalizeMembersKeys(a);
    NormalizeMembersKeys(b);
    var x, y := NormalizeMembers(a), NormalizeMembers(b);
    SharedBothWays(x, y);
    NoDupSameMembers(x, y);
    SortForgetsOrder(KeyLeq, x, y);
  }

  lemma LexReflexive(s: string)
    ensures StringLeq(s, s)
  {
    LexTotal(CharLess, s, s);
  }

  lemma SameSortSameEntries(x: seq<Member>, y: seq<Member>)
    requires SortBy(KeyLeq, x) == SortBy(KeyLeq, y)
    ensures multiset(x) == multiset(y)
  {
    assert multiset(SortBy(KeyLeq, x)) == multiset(x) && multiset(SortBy(KeyLeq, y)) == multiset(y);
  }

  lemma IndexIn(x: seq<Member>, y: seq<Member>, i: nat) returns (j: nat)
    requires multiset(x) == multiset(y) && i < |x|
    ensures j < |y| && y[j] == x[i]
  {
    assert x[i] in multiset(y);
    j :| 0 <= j < |y| && y[j] == x[i];
  }

  /** Dictionaries with the same normal form pair up their entries by key. */
  lemma NormalizedPartner(a: seq<Member>, b: seq<Member>, i: nat) returns (j: nat)
    requires NoDup(Keys(b)) && i < |a| && SortBy(KeyLeq, NormalizeMembers(a)) == SortBy(KeyLeq, NormalizeMembers(b))
    ensures j < |b| && Lookup(b, a[i].key) == Some(b[j].value) && Normalize(a[i].value) == Normalize(b[j].value)
  {
    hide NormalizeMembers, Normalize, SortBy, NoDup, Keys;
    SameSortSameEntries(NormalizeMembers(a), NormalizeMembers(b));
    j := IndexIn(NormalizeMembers(a), NormalizeMembers(b), i);
    NormalizeMembersAt(a, i);
    NormalizeMembersAt(b, j);
    LookupAt(b, j);
  }

  lemma NormalizedKeys(a: seq<Member>, b: seq<Member>)
    requires SortBy(KeyLeq, NormalizeMembers(a)) == SortBy(KeyLeq, NormalizeMembers(b))
    ensures forall k :: k in Keys(b) ==> k in Keys(a)
  {
    hide NormalizeMembers, SortBy, Keys;
    NormalizeMembersKeys(a);
    NormalizeMembersKeys(b);
    SameSortSameEntries(NormalizeMembers(a), NormalizeMembers(b));
    SameMembers(NormalizeMembers(a), NormalizeMembers(b));
    KeysOfShared(NormalizeMembers(a), NormalizeMembers(b));
  }

  lemma {:induction false} NormalizeSeparates(a: Json, b: Json)
    requires Dictionaries(a) && Dictionaries(b) && Normalize(a) == Normalize(b)
    ensures SameValue(a, b)
    decreases a
  {
    match a
    case JArray(items) =>
      forall i | 0 <= i < |items| ensures SameValue(items[i], b.items[i]) {
        NormalizeItemsAt(items, i);
        NormalizeItemsAt(b.items, i);
        NormalizeSeparates(items[i], b.items[i]);
      }
    case JObject(members) =>
      NormalizedKeys(members, b.members);
      forall i | 0 <= i < |members|
        ensures Lookup(b.members, members[i].key).Some? && SameValue(members[i].value, Lookup(b.members, members[i].key).value)
      {
        var j := NormalizedPartner(members, b.members, i);
        NormalizeSeparates(members[i].value, b.members[j].value);
      }
    case _ =>
  }

  // ---- The normal form: the same value with ascending keys ----

  /** In every dictionary, at every depth, a key stands before the later ones: it is a
      proper prefix, or has the smaller code point at the first difference. */
  ghost predicate Ascending(j: Json)
    decreases j
  {
    match j
    case JArray(items) => forall i :: 0 <= i < |items| ==> Ascending(items[i])
    case JObject(members) =>
      && (forall i, k :: 0 <= i < k < |members| ==> Precedes(members[i].key, members[k].key))
      && forall i :: 0 <= i < |members| ==> Ascending(members[i].value)
    case _ => true
  }

  lemma SortedKeysAscend(members: seq<Member>)
    requires NoDup(Keys(members))
    ensures var r := SortBy(KeyLeq, NormalizeMembers(members));
            NoDup(Keys(r)) && forall i, k :: 0 <= i < k < |r| ==> Precedes(r[i].key, r[k].key)
  {
    hide NormalizeMembers, StringLeq, Precedes, SortBy, Preorder;
    var normal := NormalizeMembers(members);
    var r := SortBy(KeyLeq, normal);
    NormalizeMembersKeys(members);
    SortBySorted(KeyLeq, normal);
    SameMembers(normal, r);
    PermutationNoDup(normal, r);
    forall i, k | 0 <= i < k < |r| ensures Precedes(r[i].key, r[k].key) {
      assert r[i] in normal && r[k] in normal && KeyLeq(r[i], r[k]) && r[i] != r[k];
      if r[i].key == r[k].key {
        SameKeySameMember(normal, r[i], r[k]);
      }
      StringLeqMeans(r[i].key, r[k].key);
    }
    forall i, k | 0 <= i < k < |r| ensures Keys(r)[i] != Keys(r)[k] {
      NothingPrecedesItself(r[i].key);
    }
  }

  lemma NormalMember(members: seq<Member>, k: nat) returns (i: nat)
    requires k < |SortBy(KeyLeq, NormalizeMembers(members))|
    ensures i < |members| && SortBy(KeyLeq, NormalizeMembers(members))[k] == Member(members[i].key, Normalize(members[i].value))
  {
    hide NormalizeMembers, Normalize, SortBy;
    var r := SortBy(KeyLeq, NormalizeMembers(members));
    i := IndexIn(r, NormalizeMembers(members), k);
    NormalizeMembersAt(members, i);
  }

  lemma {:induction false} NormalFormAscends(j: Json)
    requires Dictionaries(j)
    ensures Ascending(Normalize(j))
    decreases j
  {
    hide Precedes;
    match j
    case JArray(items) =>
      forall i | 0 <= i < |items| ensures Ascending(NormalizeItems(items)[i]) {
        NormalizeItemsAt(items, i);
        NormalFormAscends(items[i]);
      }
    case JObject(members) =>
      SortedKeysAscend(members);
      var r := SortBy(KeyLeq, NormalizeMembers(members));
      forall k | 0 <= k < |r| ensures Ascending(r[k].value) {
        var i := NormalMember(members, k);
        NormalFormAscends(members[i].value);
      }
    case _ =>
  }

  lemma {:induction false} NormalFormHoldsTheSame(j: Json)
    requires Dictionaries(j)
    ensures SameValue(j, Normalize(j))
    decreases j
  {
    match j
    case JArray(items) =>
      forall i | 0 <= i < |items| ensures SameValue(items[i], NormalizeItems(items)[i]) {
        NormalizeItemsAt(items, i);
        NormalFormHoldsTheSame(items[i]);
      }
    case JObject(members) =>
      SortedKeysAscend(members);
      NormalKeys(members);
      var normal := NormalizeMembers(members);
      var r := SortBy(KeyLeq, normal);
      forall i | 0 <= i < |members|
        ensures Lookup(r, members[i].key).Some? && SameValue(members[i].value, Lookup(r, members[i].key).value)
      {
        var k := IndexIn(normal, r, i);
        NormalizeMembersAt(members, i);
        LookupAt(r, k);
        NormalFormHoldsTheSame(members[i].value);
      }
    case _ =>
  }

  lemma NormalKeys(members: seq<Member>)
    ensures forall key :: key in Keys(SortBy(KeyLeq, NormalizeMembers(members))) ==> key in Keys(members)
  {
    hide NormalizeMembers, SortBy, Keys;
    NormalizeMembersKeys(members);
    var normal := NormalizeMembers(members);
    SameMembers(normal, SortBy(KeyLeq, normal));
    KeysOfShared(normal, SortBy(KeyLeq, normal));
  }

  /** What the canonical text is: a text that a reader of compact JSON takes as one value,
      with nothing left, and that value is the original one with ascending keys at
      every depth. */
  lemma CanonicalTextIsReadBack(j: Json, rest: string)
    requires Dictionaries(j) && Delimited(rest)
    ensures var r := Read(CanonicalText(j) + rest);
            r == Some((Normalize(j), rest)) && SameValue(j, r.value.0) && Ascending(r.value.0)
  {
    hide Read, Print, Normalize, SameValue, Ascending;
    PrintedIsReadBack(Normalize(j), rest);
    NormalFormHoldsTheSame(j);
    NormalFormAscends(j);
  }

  /** Two trees have the same canonical text exactly when they hold the same
      value: insertion order never shows, and nothing else is ever confused. */
  lemma CanonicalTextIsFaithful(a: Json, b: Json)
    requires Dictionaries(a) && Dictionaries(b)
    ensures CanonicalText(a) == CanonicalText(b) <==> SameValue(a, b)
  {
    if CanonicalText(a) == CanonicalText(b) {
      PrintUnambiguous(Normalize(a), Normalize(b), "", "");
      NormalizeSeparates(a, b);
    }
    if SameValue(a, b) {
      SameValueNormalizes(a, b);
    }
  }
}
