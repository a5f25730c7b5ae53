/** How the resolver's references differ from RFC 6901: it reads URI fragments
    without undoing their percent-encoding, and it resolves spellings that the
    standard does not allow. */
module PointerSpelling {
  import opened Results
  import opened Text
  import opened Json
  import opened JsonPointer

  // ---- Section 6: the pointer as a URI fragment ----

  /** The characters a URI fragment holds as they are (section 3.5 of RFC 3986). */
  predicate Safe(c: char) {
    || 'a' <= c <= 'z' || 'A' <= c <= 'Z' || '0' <= c <= '9'
    || c in {'-', '.', '_', '~', '!', '$', '&', '\'', '(', ')', '*', '+', ',', ';', '=', ':', '@', '/', '?'}
  }

  /** The octets of a character (section 3 of RFC 3629). */
  function Utf8(c: char): (octets: seq<nat>)
    ensures octets != [] && forall i :: 0 <= i < |octets| ==> octets[i] < 256
  {
    var n := c as int;
    if n < 0x80 then [n]
    else if n < 0x800 then [0xC0 + n / 0x40, 0x80 + n % 0x40]
    else if n < 0x1_0000 then [0xE0 + n / 0x1000, 0x80 + n / 0x40 % 0x40, 0x80 + n % 0x40]
    else [0xF0 + n / 0x4_0000, 0x80 + n / 0x1000 % 0x40, 0x80 + n / 0x40 % 0x40, 0x80 + n % 0x40]
  }

  function HexDigit(d: nat): (c: char)
    requires d < 16
    ensures '0' <= c <= '9' || 'A' <= c <= 'F'
  {
    if d < 10 then ('0' as int + d) as char else ('A' as int + d - 10) as char
  }

  function Percent(octets: seq<nat>): (s: string)
    requires forall i :: 0 <= i < |octets| ==> octets[i] < 256
    ensures |s| == 3 * |octets|
    ensures forall i :: 0 <= i < |s| ==> s[i] == '%' || '0' <= s[i] <= '9' || 'A' <= s[i] <= 'F'
  {
    if octets == [] then [] else ['%', HexDigit(octets[0] / 16), HexDigit(octets[0] % 16)] + Percent(octets[1..])
  }

  function PercentChar(c: char): (s: string)
    ensures if Safe(c) then s == [c] else |s| >= 3
    ensures !Safe(c) ==> '~' !in s && '/' !in s
  {
    if Safe(c) then [c] else Percent(Utf8(c))
  }

  function PercentEncode(s: string): string {
    if s == [] then [] else PercentChar(s[0]) + PercentEncode(s[1..])
  }

  /** Section 6 of RFC 6901. */
  function Fragment(path: seq<Step>): string { "#" + PercentEncode(Pointer(path)) }

  predicate AllSafe(s: string) { forall i :: 0 <= i < |s| ==> Safe(s[i]) }

  /** No key of the path needs percent-encoding. */
  predicate Plain(path: seq<Step>) {
    forall i :: 0 <= i < |path| && path[i].Key? ==> AllSafe(path[i].key)
  }

  lemma {:induction false} PercentIsIdentityWhenSafe(s: string)
    ensures |PercentEncode(s)| >= |s|
    ensures PercentEncode(s) == s <==> AllSafe(s)
  {
    if s != [] {
      var rest := s[1..];
      PercentIsIdentityWhenSafe(rest);
      assert s == [s[0]] + rest;
      assert AllSafe(s) <==> Safe(s[0]) && AllSafe(rest);
      if Safe(s[0]) {
        assert PercentEncode(s) == [s[0]] + PercentEncode(rest);
        assert ([s[0]] + PercentEncode(rest))[1..] == PercentEncode(rest);
      }
    }
  }

  lemma Regroup(a: string, b: string, c: string)
    ensures a + (b + c) == a + b + c
  {
  }

  lemma {:induction false} PercentConcat(a: string, b: string)
    ensures PercentEncode(a + b) == PercentEncode(a) + PercentEncode(b)
  {
    hide PercentChar;
    if a == [] {
      assert a + b == b;
    } else {
      PercentConcat(a[1..], b);
      PercentStep(a + b);
      assert (a + b)[1..] == a[1..] + b && (a + b)[0] == a[0];
      Regroup(PercentChar(a[0]), PercentEncode(a[1..]), PercentEncode(b));
    }
  }

  lemma PercentStep(s: string)
    requires s != []
    ensures PercentEncode(s) == PercentChar(s[0]) + PercentEncode(s[1..])
  {
  }

  /** How one character is escaped. */
  function EscapeChar(c: char): string { if c == '~' then "~0" else if c == '/' then "~1" else [c] }

  lemma EscapeStep(s: string)
    requires s != []
    ensures Escape(s) == EscapeChar(s[0]) + Escape(s[1..])
  {
  }

  lemma {:induction false} EscapeConcat(a: string, b: string)
    ensures Escape(a + b) == Escape(a) + Escape(b)
  {
    if a == [] {
      assert a + b == b;
    } else {
      EscapeConcat(a[1..], b);
      EscapeStep(a);
      EscapeStep(a + b);
      assert (a + b)[1..] == a[1..] + b && (a + b)[0] == a[0];
      hide Escape, EscapeChar;
      Regroup(EscapeChar(a[0]), Escape(a[1..]), Escape(b));
    }
  }

  lemma {:induction false} EscapeKeepsPlain(s: string)
    requires '~' !in s && '/' !in s
    ensures Escape(s) == s
  {
    if s != [] {
      EscapeKeepsPlain(s[1..]);
      assert s == [s[0]] + s[1..];
    }
  }

  /** Escaping and percent-encoding commute. */
  lemma {:induction false} PercentOfEscape(key: string)
    ensures PercentEncode(Escape(key)) == Escape(PercentEncode(key))
  {
    if key != [] {
      var c, rest := key[0], key[1..];
      PercentOfEscape(rest);
      EscapeStep(key);
      PercentStep(key);
      PercentConcat(EscapeChar(c), Escape(rest));
      EscapeConcat(PercentChar(c), PercentEncode(rest));
      OneCharacter(c);
    }
  }

  lemma OneCharacter(c: char)
    ensures PercentEncode(EscapeChar(c)) == Escape(PercentChar(c))
  {
    assert [c][1..] == [];
    if Safe(c) {
      assert Escape([c]) == EscapeChar(c) + Escape([]);
      PercentIsIdentityWhenSafe(EscapeChar(c));
    } else {
      EscapeKeepsPlain(PercentChar(c));
      assert PercentEncode([c]) == PercentChar(c) + PercentEncode([]);
    }
  }

  /** The path whose keys are the percent-encoded keys. */
  function PercentKeys(path: seq<Step>): (r: seq<Step>)
    ensures |r| == |path|
    ensures forall i :: 0 <= i < |path| ==> r[i] == if path[i].Key? then Key(PercentEncode(path[i].key)) else path[i]
  {
    seq(|path|, i requires 0 <= i < |path| => if path[i].Key? then Key(PercentEncode(path[i].key)) else path[i])
  }

  lemma PercentOfToken(step: Step)
    ensures PercentEncode(Token(step)) == Token(if step.Key? then Key(PercentEncode(step.key)) else step)
  {
    if step.Key? {
      PercentOfEscape(step.key);
    } else {
      PercentIsIdentityWhenSafe(Decimal(step.index));
    }
  }

  lemma {:induction false} PercentOfJoin(path: seq<Step>)
    requires path != []
    ensures PercentEncode(Join(Tokens(path), "/")) == Join(Tokens(PercentKeys(path)), "/")
  {
    hide Token, Join, PercentEncode;
    PercentOfToken(path[0]);
    var tokens, coded := Tokens(path), Tokens(PercentKeys(path));
    if |path| == 1 {
      JoinOne(tokens, "/");
      JoinOne(coded, "/");
    } else {
      PercentOfJoin(path[1..]);
      assert tokens[1..] == Tokens(path[1..]);
      assert PercentKeys(path)[1..] == PercentKeys(path[1..]) && coded[1..] == Tokens(PercentKeys(path[1..]));
      JoinMore(tokens, "/");
      JoinMore(coded, "/");
      PercentConcat(tokens[0] + "/", Join(tokens[1..], "/"));
      PercentConcat(tokens[0], "/");
      PercentOfSlash();
    }
  }

  lemma JoinOne(parts: seq<string>, sep: string)
    requires |parts| == 1
    ensures Join(parts, sep) == parts[0]
  {
  }

  lemma JoinMore(parts: seq<string>, sep: string)
    requires |parts| > 1
    ensures Join(parts, sep) == parts[0] + sep + Join(parts[1..], sep)
  {
  }

  lemma PercentOfSlash()
    ensures PercentEncode("/") == "/"
  {
    PercentIsIdentityWhenSafe("/");
  }

  /** To the resolver the URI fragment of a path spells the path of encoded keys. */
  lemma FragmentSpellsEncodedKeys(path: seq<Step>)
    ensures Fragment(path) == Encode(PercentKeys(path))
  {
    if path != [] {
      PercentOfJoin(path);
      PercentConcat("/", Join(Tokens(path), "/"));
      PercentIsIdentityWhenSafe("/");
    }
  }

  lemma PlainKeysAreKept(path: seq<Step>)
    ensures PercentKeys(path) == path <==> Plain(path)
  {
    forall i | 0 <= i < |path| && path[i].Key? ensures PercentEncode(path[i].key) == path[i].key <==> AllSafe(path[i].key) {
      PercentIsIdentityWhenSafe(path[i].key);
    }
    if PercentKeys(path) == path {
      forall i | 0 <= i < |path| && path[i].Key? ensures AllSafe(path[i].key) {
        assert PercentKeys(path)[i] == path[i];
      }
    }
  }

  /** The smallest document that has the path. */
  function Build(path: seq<Step>): Json {
    if path == [] then JNull
    else
      match path[0]
      case Key(key) => JObject([Member(key, Build(path[1..]))])
      case At(index) => JArray(seq(index + 1, _ => Build(path[1..])))
  }

  lemma {:induction false} BuildHasPath(path: seq<Step>)
    ensures Dictionaries(Build(path)) && Follow(Build(path), path).Some?
  {
    if path != [] {
      BuildHasPath(path[1..]);
    }
  }

  lemma FirstChild(path: seq<Step>)
    requires path != []
    ensures Child(Build(path), DecodePart(Token(path[0]))) == Some(Build(path[1..]))
  {
    match path[0]
    case Key(key) => DecodeEscape(key);
    case At(index) =>
      ReplaceWithoutTilde(Decimal(index), '1', '/');
      ReplaceWithoutTilde(Decimal(index), '0', '~');
      ParseIntDecimal(index);
  }

  lemma NoOtherChild(path: seq<Step>, key: string)
    requires path != [] && path[0].Key? && path[0].key != key
    ensures Child(Build(path), DecodePart(Token(Key(key)))) == None
  {
    DecodeEscape(key);
    var members := [Member(path[0].key, Build(path[1..]))];
    assert members[1..] == [];
    assert Lookup(members, key) == None;
  }

  /** A path that differs in a key leads nowhere in that document. */
  lemma {:induction false} BuildHasNoOther(path: seq<Step>, other: seq<Step>)
    requires |other| == |path| && other != path
    requires forall i :: 0 <= i < |path| ==> if path[i].Key? then other[i].Key? else other[i] == path[i]
    ensures ResolveParts(Build(path), Tokens(other)).Err?
  {
    hide Build, DecodePart, Child, Token;
    assert path == [path[0]] + path[1..] && other == [other[0]] + other[1..];
    assert Tokens(other)[1..] == Tokens(other[1..]) && Tokens(other)[0] == Token(other[0]);
    if other[0] == path[0] {
      FirstChild(path);
      BuildHasNoOther(path[1..], other[1..]);
    } else {
      assert other[0] == Key(other[0].key) && path[0].key != other[0].key;
      NoOtherChild(path, other[0].key);
    }
  }

  /** The URI fragment of a path leads to its node in every document that has it
      exactly when no key on the path needs percent-encoding. */
  lemma FragmentWorksIffPlain(path: seq<Step>)
    ensures (forall tree :: Dictionaries(tree) && Follow(tree, path).Some? ==> Resolve(tree, Fragment(path)) == Ok(Follow(tree, path).value))
       <==> Plain(path)
  {
    hide Resolve, Follow, Encode, Fragment, Plain, Build, Dictionaries;
    FragmentSpellsEncodedKeys(path);
    PlainKeysAreKept(path);
    if Plain(path) {
      forall tree | Dictionaries(tree) && Follow(tree, path).Some? ensures Resolve(tree, Fragment(path)) == Ok(Follow(tree, path).value) {
        PointerRoundTrip(tree, path);
      }
    } else {
      BuildHasPath(path);
      FragmentMisses(path);
      assert Resolve(Build(path), Fragment(path)) != Ok(Follow(Build(path), path).value);
    }
  }

  lemma FragmentMisses(path: seq<Step>)
    requires PercentKeys(path) != path
    ensures Resolve(Build(path), Encode(PercentKeys(path))).Err?
  {
    hide Encode, Build, ResolveParts;
    EncodeSplits(PercentKeys(path));
    BuildHasNoOther(path, PercentKeys(path));
  }

  /** A reference of one part leads to one child. */
  lemma OnePart(tree: Json, part: string)
    requires '/' !in part
    ensures var child := Child(tree, DecodePart(part));
            Resolve(tree, "#/" + part) == if child.Some? then Ok(child.value) else Err(Unresolvable)
  {
    hide Child, DecodePart, Split;
    var reference := "#/" + part;
    SplitOne(part, '/');
    assert reference[2..] == part && |reference| >= 2 && [part][1..] == [];
    var child := Child(tree, DecodePart(part));
    if child.Some? {
      assert ResolveParts(child.value, []) == Ok(child.value);
    }
  }

  lemma PlainPart(part: string)
    requires '~' !in part
    ensures DecodePart(part) == part
  {
    ReplaceWithoutTilde(part, '1', '/');
    ReplaceWithoutTilde(part, '0', '~');
  }

  lemma WrongKey(key: string, coded: string, v: Json, w: Json)
    requires key != coded && '/' !in coded && '~' !in coded
    ensures Resolve(JObject([Member(key, v)]), "#/" + coded) == Err(Unresolvable)
    ensures Resolve(JObject([Member(key, v), Member(coded, w)]), "#/" + coded) == Ok(w)
  {
    var one, two := [Member(key, v)], [Member(key, v), Member(coded, w)];
    OnePart(JObject(one), coded);
    OnePart(JObject(two), coded);
    PlainPart(coded);
    var none: seq<Member> := [];
    assert one[1..] == none && two[1..][0] == Member(coded, w);
    assert Lookup(none, coded) == None;
    assert Lookup(one, coded) == Lookup(one[1..], coded) && Lookup(two, coded) == Lookup(two[1..], coded);
    hide Resolve, DecodePart;
  }

  /** The standard's own example, the key `c%d` with the fragment `#/c%25d`: the
      resolver finds nothing, or another node. */
  lemma PercentEncodingIsNotUndone()
    ensures Fragment([Key("c%d")]) == "#/c%25d"
    ensures Resolve(JObject([Member("c%d", JInt(1))]), "#/c%25d") == Err(Unresolvable)
    ensures Resolve(JObject([Member("c%d", JInt(1)), Member("c%25d", JInt(2))]), "#/c%25d") == Ok(JInt(2))
  {
    hide *;
    ExampleFragment();
    assert |"c%d"| == 3 && |"c%25d"| == 5;
    WrongKey("c%d", "c%25d", JInt(1), JInt(2));
    assert "#/" + "c%25d" == "#/c%25d";
  }

  lemma ExampleFragment()
    ensures Fragment([Key("c%d")]) == "#/c%25d"
  {
    hide PercentEncode, Escape;
    PercentOfExample();
    var coded := PercentKeys([Key("c%d")]);
    FragmentSpellsEncodedKeys([Key("c%d")]);
    assert coded == [Key("c%25d")];
    EscapeKeepsPlain("c%25d");
    assert Tokens(coded) == ["c%25d"];
  }

  lemma PercentOfExample()
    ensures PercentEncode("c%d") == "c%25d"
  {
    assert PercentChar('%') == "%25" by {
      assert Utf8('%') == [37] && |[37][1..]| == 0;
    }
    assert "c%d"[1..] == "%d" && "%d"[1..] == "d" && "d"[1..] == "";
    assert PercentEncode("d") == "d" + PercentEncode("");
    assert PercentEncode("%d") == "%25" + PercentEncode("d");
    assert PercentEncode("c%d") == "c" + PercentEncode("%d");
  }

  // ---- Which resolved references the standard allows ----

  /** Section 3: `~` stands only in `~0` and `~1`. */
  predicate WellEscaped(part: string) {
    if part == [] then true
    else if part[0] == '/' then false
    else if part[0] == '~' then |part| >= 2 && part[1] in {'0', '1'} && WellEscaped(part[2..])
    else WellEscaped(part[1..])
  }

  function Unescape(part: string): string
    requires WellEscaped(part)
  {
    if part == [] then []
    else if part[0] == '~' then [if part[1] == '0' then '~' else '/'] + Unescape(part[2..])
    else [part[0]] + Unescape(part[1..])
  }

  lemma {:induction false} EscapeUnescape(part: string)
    requires WellEscaped(part)
    ensures Escape(Unescape(part)) == part
  {
    if part != [] {
      var text := Unescape(part);
      if part[0] == '~' {
        EscapeUnescape(part[2..]);
        assert text[1..] == Unescape(part[2..]) && part == part[..2] + part[2..];
      } else {
        EscapeUnescape(part[1..]);
        assert text[1..] == Unescape(part[1..]) && part == [part[0]] + part[1..];
      }
    }
  }

  lemma {:induction false} EscapedIsWellEscaped(key: string)
    ensures WellEscaped(Escape(key))
  {
    if key != [] {
      EscapedIsWellEscaped(key[1..]);
      var rest := Escape(key[1..]);
      if key[0] in {'~', '/'} {
        assert Escape(key)[2..] == rest;
      } else {
        assert Escape(key)[1..] == rest;
      }
    }
  }

  /** The part spells a key by section 3 where it is used on an object, and an
      index without sign, space, underscore or leading zero by section 4 where it
      is used on an array. */
  ghost predicate StrictPart(tree: Json, part: string) {
    match tree
    case JObject(_) => WellEscaped(part)
    case JArray(_) => exists n: nat :: part == Decimal(n)
    case _ => false
  }

  ghost predicate StrictAlong(tree: Json, parts: seq<string>)
    decreases |parts|
  {
    parts == []
    || (StrictPart(tree, parts[0])
        && var child := Child(tree, DecodePart(parts[0]));
           child.Some? && StrictAlong(child.value, parts[1..]))
  }

  lemma StrictPartIsToken(tree: Json, part: string) returns (step: Step)
    requires StrictPart(tree, part) && Child(tree, DecodePart(part)).Some?
    ensures Token(step) == part && NextNode(tree, step) == Child(tree, DecodePart(part))
  {
    match tree
    case JObject(_) =>
      step := Key(Unescape(part));
      EscapeUnescape(part);
      DecodeEscape(Unescape(part));
    case JArray(_) =>
      var n: nat :| part == Decimal(n);
      step := At(n);
      ReplaceWithoutTilde(part, '1', '/');
      ReplaceWithoutTilde(part, '0', '~');
      ParseIntDecimal(n);
  }

  lemma TokenIsStrict(tree: Json, step: Step)
    requires NextNode(tree, step).Some?
    ensures StrictPart(tree, Token(step))
  {
    if step.Key? {
      EscapedIsWellEscaped(step.key);
    }
  }

  lemma StrictFirst(tree: Json, parts: seq<string>) returns (step: Step)
    requires parts != [] && StrictAlong(tree, parts)
    ensures Token(step) == parts[0] && NextNode(tree, step).Some? && StrictAlong(NextNode(tree, step).value, parts[1..])
  {
    hide StrictPart, DecodePart, Child, Token, NextNode;
    step := StrictPartIsToken(tree, parts[0]);
  }

  lemma {:induction false} StrictPartsSpellAPath(tree: Json, parts: seq<string>) returns (path: seq<Step>)
    requires StrictAlong(tree, parts)
    ensures Tokens(path) == parts && Follow(tree, path).Some?
    decreases |parts|
  {
    hide StrictAlong, Token, NextNode;
    if parts == [] {
      path := [];
    } else {
      var step := StrictFirst(tree, parts);
      var rest := StrictPartsSpellAPath(NextNode(tree, step).value, parts[1..]);
      path := [step] + rest;
      assert path[1..] == rest && parts == [parts[0]] + parts[1..];
      assert Tokens(path) == [Token(step)] + Tokens(rest);
    }
  }

  lemma {:induction false} SpelledPartsAreStrict(tree: Json, path: seq<Step>)
    requires Follow(tree, path).Some?
    ensures StrictAlong(tree, Tokens(path))
    decreases |path|
  {
    if path != [] {
      TokenIsStrict(tree, path[0]);
      TokenFindsChild(tree, path);
      var child := Child(tree, DecodePart(Token(path[0]))).value;
      SpelledPartsAreStrict(child, path[1..]);
      assert Tokens(path)[1..] == Tokens(path[1..]);
    }
  }

  lemma {:induction false} JoinSplit(s: string, sep: char)
    ensures Join(Split(s, sep), [sep]) == s
  {
    if s != [] {
      var rest := Split(s[1..], sep);
      JoinSplit(s[1..], sep);
      assert s == [s[0]] + s[1..];
      if s[0] == sep {
        assert ([[]] + rest)[1..] == rest;
      } else {
        var all := [[s[0]] + rest[0]] + rest[1..];
        assert all[1..] == rest[1..];
      }
    }
  }

  lemma SpelledIsStrict(tree: Json, path: seq<Step>)
    requires Follow(tree, path).Some? && path != []
    ensures "#/" <= Encode(path) && StrictAlong(tree, Split(Encode(path)[2..], '/'))
  {
    hide *;
    EncodeSplits(path);
    SpelledPartsAreStrict(tree, path);
  }

  lemma StrictIsSpelled(tree: Json, reference: string) returns (path: seq<Step>)
    requires "#/" <= reference && StrictAlong(tree, Split(reference[2..], '/'))
    ensures Encode(path) == reference && Follow(tree, path).Some?
  {
    hide Split, StrictAlong, Join, Follow;
    JoinSplit(reference[2..], '/');
    path := StrictPartsSpellAPath(tree, Split(reference[2..], '/'));
    assert Pointer(path) == "/" + reference[2..];
    assert reference == "#" + ("/" + reference[2..]);
  }

  lemma WholeDocument(tree: Json)
    ensures Encode([]) == "#" && Follow(tree, []).Some?
  {
  }

  /** A reference that resolves is the pointer of a path exactly when all its parts
      are as sections 3 and 4 demand where they are used. */
  lemma ResolvedIsSpelledIffStrict(tree: Json, reference: string)
    requires Resolve(tree, reference).Ok?
    ensures reference == "#" || "#/" <= reference
    ensures (exists path :: Encode(path) == reference && Follow(tree, path).Some?)
       <==> reference == "#" || StrictAlong(tree, Split(reference[2..], '/'))
  {
    LocalReference(tree, reference);
    hide *;
    WholeDocument(tree);
    if reference != "#" {
      if path :| Encode(path) == reference && Follow(tree, path).Some? {
        SpelledIsStrict(tree, path);
      }
      if StrictAlong(tree, Split(reference[2..], '/')) {
        var path := StrictIsSpelled(tree, reference);
      }
    }
  }

  lemma LocalReference(tree: Json, reference: string)
    requires Resolve(tree, reference).Ok?
    ensures reference == "#" || "#/" <= reference
  {
  }

  lemma PairItem(part: string, index: int)
    requires '/' !in part && '~' !in part && ParseInt(part) == Some(index) && (index == -1 || index == 1)
    ensures Resolve(JArray([JInt(1), JInt(2)]), "#/" + part) == Ok(JInt(2))
  {
    OnePart(JArray([JInt(1), JInt(2)]), part);
    PlainPart(part);
    hide Resolve, ParseInt, DecodePart;
  }

  lemma OwnKey(key: string, v: Json)
    requires '/' !in key && DecodePart(key) == key
    ensures Resolve(JObject([Member(key, v)]), "#/" + key) == Ok(v)
  {
    OnePart(JObject([Member(key, v)]), key);
    hide Resolve, DecodePart;
  }

  /** References that resolve although the standard does not allow them: a negative
      index, a leading zero, and a `~` that escapes nothing. */
  lemma ForeignSpellingsResolve()
    ensures Resolve(JArray([JInt(1), JInt(2)]), "#/-1") == Ok(JInt(2))
    ensures Resolve(JArray([JInt(1), JInt(2)]), "#/01") == Ok(JInt(2))
    ensures Resolve(JObject([Member("a~2", JInt(3))]), "#/a~2") == Ok(JInt(3))
  {
    hide *;
    ForeignNumerals();
    ForeignEscape();
    PairItem("-1", -1);
    PairItem("01", 1);
    OwnKey("a~2", JInt(3));
    assert "#/" + "-1" == "#/-1" && "#/" + "01" == "#/01" && "#/" + "a~2" == "#/a~2";
  }

  lemma ForeignNumerals()
    ensures ParseInt("-1") == Some(-1) && ParseInt("01") == Some(1)
  {
    NoSpaceStrip("-1");
    NoSpaceStrip("01");
    assert "-1"[1..] == "1" && "01"[1..] == "1" && "1"[1..] == "";
    assert ReadDigits("1", false, 0) == Some(1) && ReadDigits("1", true, 0) == Some(1);
    hide Strip;
  }

  lemma ForeignEscape()
    ensures DecodePart("a~2") == "a~2"
  {
    assert "a~2"[1..] == "~2" && "~2"[1..] == "2";
    assert Replace("~2", '~', '1', '/') == "~2" && Replace("~2", '~', '0', '~') == "~2";
    assert Replace("a~2", '~', '1', '/') == "a~2" && Replace("a~2", '~', '0', '~') == "a~2";
  }
}
