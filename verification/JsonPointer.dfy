/** The reference crawler of the contract gate: local JSON Pointer resolution
    and the walk that collects every `$ref` of a schema bundle. */
module JsonPointer {
  import opened Orders
  import opened Results
  import opened Text
  import opened Json

  datatype PointerError = NonLocal | Unresolvable | NonStringRef

  // ---- Resolution ----

  /** `~1` is decoded before `~0`. */
  function DecodePart(encoded: string): string {
    Replace(Replace(encoded, '~', '1', '/'), '~', '0', '~')
  }

  /** Python list indexing, negative indices included. */
  function ItemAt(items: seq<Json>, index: int): Option<Json> {
    if 0 <= index < |items| then Some(items[index])
    else if -|items| <= index < 0 then Some(items[|items| + index])
    else None
  }

  function Child(current: Json, part: string): Option<Json> {
    match current
    case JObject(members) => Lookup(members, part)
    case JArray(items) =>
      (match ParseInt(part)
       case Some(index) => ItemAt(items, index)
       case None => None)
    case _ => None
  }

  function ResolveParts(current: Json, parts: seq<string>): Result<Json, PointerError>
    decreases |parts|
  {
    if parts == [] then Ok(current)
    else
      match Child(current, DecodePart(parts[0]))
      case Some(next) => ResolveParts(next, parts[1..])
      case None => Err(Unresolvable)
  }

  function Resolve(document: Json, reference: string): Result<Json, PointerError> {
    if reference == "#" then Ok(document)
    else if !("#/" <= reference) then Err(NonLocal)
    else ResolveParts(document, Split(reference[2..], '/'))
  }

  /** The resolver as it is written: one mutable position in the document. */
  method ResolveLocalJsonPointer(document: Json, reference: string) returns (r: Result<Json, PointerError>)
    ensures r == Resolve(document, reference)
  {
    hide Split, DecodePart, ParseInt, ItemAt, Lookup;
    if reference == "#" {
      return Ok(document);
    }
    if !("#/" <= reference) {
      return Err(NonLocal);
    }
    var parts := Split(reference[2..], '/');
    var current := document;
    assert parts[0..] == parts;
    for i := 0 to |parts|
      invariant ResolveParts(current, parts[i..]) == Resolve(document, reference)
    {
      assert parts[i..][0] == parts[i] && parts[i..][1..] == parts[i+1..];
      var part := DecodePart(parts[i]);
      var next: Option<Json> := None;
      if current.JObject? {
        next := Lookup(current.members, part);
      } else if current.JArray? {
        var index := ParseInt(part);
        if index.Some? {
          next := ItemAt(current.items, index.value);
        }
      }
      assert next == Child(current, part);
      if next.None? {
        return Err(Unresolvable);
      }
      current := next.value;
    }
    return Ok(current);
  }

  // ---- Paths and their spelling by sections 3 and 4 of RFC 6901 ----

  datatype Step = Key(key: string) | At(index: nat)

  function NextNode(tree: Json, step: Step): Option<Json> {
    match (tree, step)
    case (JObject(members), Key(key)) => Lookup(members, key)
    case (JArray(items), At(index)) => if index < |items| then Some(items[index]) else None
    case _ => None
  }

  /** The node a path of keys and indices leads to. */
  function Follow(tree: Json, path: seq<Step>): Option<Json>
    decreases |path|
  {
    if path == [] then Some(tree)
    else
      match NextNode(tree, path[0])
      case Some(node) => Follow(node, path[1..])
      case None => None
  }

  /** RFC 6901 section 3: `~` is written `~0` and `/` is written `~1`. */
  function Escape(token: string): string {
    if token == [] then []
    else (if token[0] == '~' then "~0" else if token[0] == '/' then "~1" else [token[0]]) + Escape(token[1..])
  }

  function Token(step: Step): string {
    match step
    case Key(key) => Escape(key)
    case At(index) => Decimal(index)
  }

  function Tokens(path: seq<Step>): (r: seq<string>)
    ensures |r| == |path| && forall i :: 0 <= i < |r| ==> r[i] == Token(path[i])
  {
    seq(|path|, i requires 0 <= i < |path| => Token(path[i]))
  }

  /** The JSON Pointer of a path. */
  function Pointer(path: seq<Step>): string {
    if path == [] then "" else "/" + Join(Tokens(path), "/")
  }

  /** The pointer behind a `#`, not percent-encoded: what the resolver reads. */
  function Encode(path: seq<Step>): string { "#" + Pointer(path) }

  function HalfEscape(token: string): string {
    if token == [] then []
    else (if token[0] == '~' then "~0" else [token[0]]) + HalfEscape(token[1..])
  }

  lemma {:induction false} FirstPass(token: string)
    ensures Replace(Escape(token), '~', '1', '/') == HalfEscape(token)
  {
    if token != [] {
      var rest := Escape(token[1..]);
      FirstPass(token[1..]);
      if token[0] == '~' {
        assert Escape(token)[1..] == "0" + rest && ("0" + rest)[1..] == rest;
      } else if token[0] == '/' {
        assert Escape(token)[2..] == rest;
      } else {
        assert Escape(token)[1..] == rest;
      }
    }
  }

  lemma {:induction false} SecondPass(token: string)
    ensures Replace(HalfEscape(token), '~', '0', '~') == token
  {
    if token != [] {
      var rest := HalfEscape(token[1..]);
      SecondPass(token[1..]);
      if token[0] == '~' {
        assert HalfEscape(token)[2..] == rest;
      } else {
        assert HalfEscape(token)[1..] == rest;
      }
    }
  }

  /** Decoding `~1` before `~0` inverts the escaping of every string. */
  lemma DecodeEscape(token: string)
    ensures DecodePart(Escape(token)) == token
  {
    FirstPass(token);
    SecondPass(token);
  }

  /** The other order of decoding would not: `~1` as a key is a counterexample. */
  lemma OtherOrderFails()
    ensures Replace(Replace(Escape("~1"), '~', '0', '~'), '~', '1', '/') != "~1"
  {
    assert Escape("~1") == "~01";
    assert Replace("~01", '~', '0', '~') == "~1" by {
      assert "~01"[2..] == "1";
    }
  }

  lemma {:induction false} EscapeHasNoSlash(token: string)
    ensures '/' !in Escape(token)
  {
    if token != [] {
      EscapeHasNoSlash(token[1..]);
    }
  }

  lemma {:induction false} ReplaceWithoutTilde(s: string, second: char, with: char)
    requires '~' !in s
    ensures Replace(s, '~', second, with) == s
  {
    if |s| >= 2 {
      ReplaceWithoutTilde(s[1..], second, with);
      assert s == [s[0]] + s[1..];
    }
  }

  /** A token leads to the same child as the step it spells. */
  lemma TokenFindsChild(tree: Json, path: seq<Step>)
    requires path != [] && Follow(tree, path).Some?
    ensures var child := Child(tree, DecodePart(Token(path[0])));
            child.Some? && Follow(tree, path) == Follow(child.value, path[1..])
  {
    match path[0]
    case Key(key) => DecodeEscape(key);
    case At(index) =>
      ReplaceWithoutTilde(Decimal(index), '1', '/');
      ReplaceWithoutTilde(Decimal(index), '0', '~');
      ParseIntDecimal(index);
  }

  lemma {:induction false} ResolveTokens(tree: Json, path: seq<Step>)
    requires Follow(tree, path).Some?
    ensures ResolveParts(tree, Tokens(path)) == Ok(Follow(tree, path).value)
    decreases |path|
  {
    if path != [] {
      TokenFindsChild(tree, path);
      var child := Child(tree, DecodePart(Token(path[0]))).value;
      ResolveTokens(child, path[1..]);
      assert Tokens(path)[1..] == Tokens(path[1..]);
    }
  }

  /** The resolver takes a spelled path apart into its tokens. */
  lemma EncodeSplits(path: seq<Step>)
    requires path != []
    ensures Encode(path) != "#" && "#/" <= Encode(path) && Split(Encode(path)[2..], '/') == Tokens(path)
  {
    var tokens := Tokens(path);
    forall t | t in tokens ensures '/' !in t {
      var i :| 0 <= i < |tokens| && tokens[i] == t;
      if path[i].Key? {
        EscapeHasNoSlash(path[i].key);
      }
    }
    SplitJoin(tokens, '/');
    hide Split, Join, Escape, Tokens;
    BehindTheSlash(Join(tokens, "/"));
  }

  lemma BehindTheSlash(s: string)
    ensures var reference := "#" + ("/" + s); reference != "#" && "#/" <= reference && reference[2..] == s
  {
  }

  /** Resolving `#` and the JSON Pointer of any path to a node returns that node. */
  lemma PointerRoundTrip(tree: Json, path: seq<Step>)
    requires Follow(tree, path).Some?
    ensures Resolve(tree, Encode(path)) == Ok(Follow(tree, path).value)
  {
    if path != [] {
      EncodeSplits(path);
      ResolveTokens(tree, path);
    }
  }

  lemma ChildIsStep(tree: Json, part: string)
    ensures Child(tree, part).Some? ==> exists step :: NextNode(tree, step) == Child(tree, part)
  {
    match tree
    case JObject(members) => assert NextNode(tree, Key(part)) == Child(tree, part);
    case JArray(items) =>
      var index := ParseInt(part);
      if index.Some? && 0 <= index.value < |items| {
        assert NextNode(tree, At(index.value)) == Child(tree, part);
      } else if index.Some? && -|items| <= index.value < 0 {
        assert NextNode(tree, At(|items| + index.value)) == Child(tree, part);
      }
    case _ =>
  }

  lemma {:induction false} ResolvedPartsAreInside(tree: Json, parts: seq<string>) returns (path: seq<Step>)
    requires ResolveParts(tree, parts).Ok?
    ensures Follow(tree, path) == Some(ResolveParts(tree, parts).value)
    decreases |parts|
  {
    if parts == [] {
      path := [];
    } else {
      var part := DecodePart(parts[0]);
      ChildIsStep(tree, part);
      var step :| NextNode(tree, step) == Child(tree, part);
      var rest := ResolvedPartsAreInside(Child(tree, part).value, parts[1..]);
      path := [step] + rest;
      assert path[1..] == rest;
    }
  }

  /** Whatever a reference resolves to is a node of the same document. */
  lemma ResolvedIsInside(tree: Json, reference: string) returns (path: seq<Step>)
    requires Resolve(tree, reference).Ok?
    ensures Follow(tree, path) == Some(Resolve(tree, reference).value)
  {
    if reference == "#" {
      path := [];
    } else {
      path := ResolvedPartsAreInside(tree, Split(reference[2..], '/'));
    }
  }

  // ---- Collecting references ----

  type References = Result<seq<(string, string)>, PointerError>

  function Walk(value: Json, path: string): References
    decreases value, 0
  {
    match value
    case JObject(members) => WalkMembers(members, path)
    case JArray(items) => WalkItems(items, 0, path)
    case _ => Ok([])
  }

  /** The `$ref` key itself, when the member is one. */
  function OwnReference(key: string, child: Json, childPath: string): References {
    if key != "$ref" then Ok([])
    else if child.JString? then Ok([(childPath, child.s)])
    else Err(NonStringRef)
  }

  function WalkMembers(members: seq<Member>, path: string): References
    decreases members, 0
  {
    if members == [] then Ok([])
    else
      var Member(key, child) := members[0];
      var childPath := path + "/" + key;
      var own :- OwnReference(key, child, childPath);
      var below :- Walk(child, childPath);
      Prepend(own + below, WalkMembers(members[1..], path))
  }

  function WalkItems(items: seq<Json>, index: nat, path: string): References
    decreases items, 0
  {
    if items == [] then Ok([])
    else
      var below :- Walk(items[0], path + "/" + Decimal(index));
      Prepend(below, WalkItems(items[1..], index + 1, path))
  }

  /** The walk as it is written: a list extended inside the recursion. */
  method WalkReferences(value: Json, path: string) returns (r: References)
    ensures r == Walk(value, path)
    decreases value
  {
    var references: seq<(string, string)> := [];
    if value.JObject? {
      var members := value.members;
      assert members[0..] == members;
      PrependNothing([], Walk(value, path));
      for i := 0 to |members|
        invariant Walk(value, path) == Prepend(references, WalkMembers(members[i..], path))
      {
        var Member(key, child) := members[i];
        assert members[i..][0] == members[i] && members[i..][1..] == members[i+1..];
        ghost var before := references;
        var childPath := path + "/" + key;
        if key == "$ref" {
          if !child.JString? {
            return Err(NonStringRef);
          }
          references := references + [(childPath, child.s)];
        }
        var below := WalkReferences(child, childPath);
        if below.Err? {
          return below;
        }
        references := references + below.value;
        ghost var own := if key == "$ref" then [(childPath, child.s)] else [];
        assert references == before + (own + below.value);
        PrependTwice(before, own + below.value, WalkMembers(members[i+1..], path));
      }
    } else if value.JArray? {
      var items := value.items;
      assert items[0..] == items;
      PrependNothing([], Walk(value, path));
      for i := 0 to |items|
        invariant Walk(value, path) == Prepend(references, WalkItems(items[i..], i, path))
      {
        assert items[i..][0] == items[i] && items[i..][1..] == items[i+1..];
        var below := WalkReferences(items[i], path + "/" + Decimal(i));
        if below.Err? {
          return below;
        }
        PrependTwice(references, below.value, WalkItems(items[i+1..], i + 1, path));
        references := references + below.value;
      }
    }
    PrependNothing<(string, string), PointerError>(references, Ok([]));
    return Ok(references);
  }

  function ResolveAll(bundle: Json, references: seq<(string, string)>): References {
    if references == [] then Ok([])
    else
      var _ :- Resolve(bundle, references[0].1);
      var rest :- ResolveAll(bundle, references[1..]);
      Ok([references[0]] + rest)
  }

  function Crawl(bundle: Json): References {
    var references :- Walk(bundle, "$");
    ResolveAll(bundle, references)
  }

  /** What is left to resolve decides the whole. */
  lemma {:induction false} ResolvedSoFar(bundle: Json, references: seq<(string, string)>)
    ensures ResolveAll(bundle, references).Ok? ==> ResolveAll(bundle, references) == Ok(references)
    ensures references != [] && Resolve(bundle, references[0].1).Ok? ==>
              var rest := ResolveAll(bundle, references[1..]);
              ResolveAll(bundle, references) == if rest.Ok? then Ok(references) else rest
  {
    hide Resolve;
    if references != [] {
      ResolvedSoFar(bundle, references[1..]);
      assert references == [references[0]] + references[1..];
    }
  }

  /** The crawl as it is written: the walk, then one resolution per reference. */
  method CrawlSchemaReferences(bundle: Json) returns (r: References)
    ensures r == Crawl(bundle)
  {
    hide Walk, Resolve;
    var found := WalkReferences(bundle, "$");
    if found.Err? {
      return found;
    }
    var references := found.value;
    assert references[0..] == references;
    ResolvedSoFar(bundle, references);
    for i := 0 to |references|
      invariant var rest := ResolveAll(bundle, references[i..]);
                Crawl(bundle) == if rest.Ok? then found else rest
    {
      assert references[i..][0] == references[i] && references[i..][1..] == references[i+1..];
      ResolvedSoFar(bundle, references[i..]);
      var target := ResolveLocalJsonPointer(bundle, references[i].1);
      if target.Err? {
        return Err(target.error);
      }
    }
    return found;
  }

  // ---- What the crawler finds ----

  /** A string-valued `$ref` key, at any depth of the tree. */
  ghost predicate IsReference(tree: Json, path: seq<Step>) {
    IsRefKey(tree, path) && Follow(tree, path).value.JString?
  }

  ghost predicate IsRefKey(tree: Json, path: seq<Step>) {
    path != [] && path[|path|-1] == Key("$ref") && Follow(tree, path).Some?
  }

  function Under(step: Step, paths: seq<seq<Step>>): (r: seq<seq<Step>>)
    ensures |r| == |paths| && forall i :: 0 <= i < |r| ==> r[i] == [step] + paths[i]
  {
    seq(|paths|, i requires 0 <= i < |paths| => [step] + paths[i])
  }

  /** The paths of all `$ref` keys, in the order of the walk. */
  function RefPaths(value: Json): seq<seq<Step>>
    decreases value, 0
  {
    match value
    case JObject(members) => MemberPaths(members)
    case JArray(items) => ItemPaths(items, 0)
    case _ => []
  }

  function MemberPaths(members: seq<Member>): seq<seq<Step>>
    decreases members, 0
  {
    if members == [] then []
    else
      var Member(key, child) := members[0];
      (if key == "$ref" then [[Key(key)]] else []) + Under(Key(key), RefPaths(child)) + MemberPaths(members[1..])
  }

  function ItemPaths(items: seq<Json>, index: nat): seq<seq<Step>>
    decreases items, 0
  {
    if items == [] then [] else Under(At(index), RefPaths(items[0])) + ItemPaths(items[1..], index + 1)
  }

  lemma UnderMembers(step: Step, paths: seq<seq<Step>>)
    ensures forall q :: q in Under(step, paths) <==> q != [] && q[0] == step && q[1..] in paths
    ensures NoDup(paths) ==> NoDup(Under(step, paths))
  {
    var u := Under(step, paths);
    forall q ensures q in u <==> q != [] && q[0] == step && q[1..] in paths {
      if q in u {
        var i :| 0 <= i < |u| && u[i] == q;
        assert q[1..] == paths[i];
      }
      if q != [] && q[0] == step && q[1..] in paths {
        var i :| 0 <= i < |paths| && paths[i] == q[1..];
        assert u[i] == q;
      }
    }
    if NoDup(paths) {
      forall i, j | 0 <= i < j < |u| ensures u[i] != u[j] {
        assert u[i][1..] == paths[i] && u[j][1..] == paths[j];
      }
    }
  }

  /** The path list holds exactly the `$ref` keys of the tree, each once. */
  lemma {:induction false} RefPathsExact(value: Json)
    requires Dictionaries(value)
    ensures forall q :: q in RefPaths(value) <==> IsRefKey(value, q)
    ensures NoDup(RefPaths(value))
    decreases value, 1
  {
    match value
    case JObject(members) =>
      MemberPathsExact(members);
      forall q ensures IsRefKey(value, q) <==> MemberRefKey(members, q) {
        if q != [] {
          FollowUnder(value, q[0], q[1..]);
          assert q == [q[0]] + q[1..];
          assert |q| > 1 ==> q[1..][|q|-2] == q[|q|-1];
        }
      }
    case JArray(items) =>
      ItemPathsExact(items, 0);
      forall q ensures IsRefKey(value, q) <==> ItemRefKey(items, 0, q) {
        if |q| > 1 {
          assert q[1..][|q|-2] == q[|q|-1];
        }
      }
    case _ =>
  }

  /** Paths whose first step is a key of `members` and that end in a `$ref` key. */
  ghost predicate MemberRefKey(members: seq<Member>, q: seq<Step>) {
    q != [] && q[0].Key? && Lookup(members, q[0].key).Some?
    && var child := Lookup(members, q[0].key).value;
       if |q| == 1 then q[0].key == "$ref" else IsRefKey(child, q[1..])
  }

  lemma {:induction false} MemberPathsExact(members: seq<Member>)
    requires NoDup(Keys(members)) && forall i :: 0 <= i < |members| ==> Dictionaries(members[i].value)
    ensures forall q :: q in MemberPaths(members) <==> MemberRefKey(members, q)
    ensures NoDup(MemberPaths(members))
    decreases members, 0
  {
    if members != [] {
      var key, child, rest := members[0].key, members[0].value, members[1..];
      assert Keys(rest) == Keys(members)[1..];
      RefPathsExact(child);
      MemberPathsExact(rest);
      var own := if key == "$ref" then [[Key(key)]] else [];
      var below, later := Under(Key(key), RefPaths(child)), MemberPaths(rest);
      UnderMembers(Key(key), RefPaths(child));
      assert Keys(members) == [key] + Keys(rest);
      LookupMissing(rest, key);
      forall q ensures q in MemberPaths(members) <==> MemberRefKey(members, q) {
        assert q in MemberPaths(members) <==> q in own || q in below || q in later;
        if q != [] && q[0] == Key(key) {
          assert |q| == 1 ==> q == [Key(key)];
          assert |q| == 1 ==> !IsRefKey(child, q[1..]);
        }
      }
      ConcatNoDup(own, below);
      ConcatNoDup(own + below, later);
    }
  }

  ghost predicate ItemRefKey(items: seq<Json>, index: nat, q: seq<Step>) {
    q != [] && q[0].At? && index <= q[0].index < index + |items| && IsRefKey(items[q[0].index - index], q[1..])
  }

  lemma {:induction false} ItemPathsExact(items: seq<Json>, index: nat)
    requires forall i :: 0 <= i < |items| ==> Dictionaries(items[i])
    ensures forall q :: q in ItemPaths(items, index) <==> ItemRefKey(items, index, q)
    ensures NoDup(ItemPaths(items, index))
    decreases items, 0
  {
    if items != [] {
      RefPathsExact(items[0]);
      ItemPathsExact(items[1..], index + 1);
      UnderMembers(At(index), RefPaths(items[0]));
      ConcatNoDup(Under(At(index), RefPaths(items[0])), ItemPaths(items[1..], index + 1));
    }
  }

  /** How the walk names a path. */
  function Render(q: seq<Step>): string {
    if q == [] then "" else "/" + (if q[0].Key? then q[0].key else Decimal(q[0].index)) + Render(q[1..])
  }

  /** The entry reports the string found at the end of the path. */
  ghost predicate Reports(tree: Json, path: string, entry: (string, string), q: seq<Step>) {
    Follow(tree, q) == Some(JString(entry.1)) && entry.0 == path + Render(q)
  }

  ghost predicate AllReported(tree: Json, path: string, entries: seq<(string, string)>, paths: seq<seq<Step>>) {
    |entries| == |paths| && forall i :: 0 <= i < |paths| ==> Reports(tree, path, entries[i], paths[i])
  }

  /** The walk succeeds with one entry per `$ref` path, in order, or meets a
      `$ref` that is not a string. */
  ghost predicate WalkOutcome(tree: Json, path: string, walk: References, paths: seq<seq<Step>>) {
    match walk
    case Ok(entries) => AllReported(tree, path, entries, paths)
    case Err(e) => e == NonStringRef && exists q :: q in paths && Follow(tree, q).Some? && !Follow(tree, q).value.JString?
  }

  lemma RenderUnder(path: string, step: Step, q: seq<Step>)
    ensures path + Render([step] + q) == path + Render([step]) + Render(q)
  {
    assert ([step] + q)[1..] == q && [step][1..] == [];
    assert Render([step]) == "/" + if step.Key? then step.key else Decimal(step.index);
  }

  /** Entries found in a child are entries of the parent one step further up. */
  lemma ReportsUnder(tree: Json, child: Json, step: Step, path: string, walk: References, paths: seq<seq<Step>>)
    requires forall q: seq<Step> :: Follow(tree, [step] + q) == Follow(child, q)
    requires WalkOutcome(child, path + Render([step]), walk, paths)
    ensures WalkOutcome(tree, path, walk, Under(step, paths))
  {
    if walk.Ok? {
      forall i | 0 <= i < |paths| ensures Reports(tree, path, walk.value[i], Under(step, paths)[i]) {
        assert Reports(child, path + Render([step]), walk.value[i], paths[i]);
        RenderUnder(path, step, paths[i]);
      }
    } else {
      var q :| q in paths && Follow(child, q).Some? && !Follow(child, q).value.JString?;
      var i :| 0 <= i < |paths| && paths[i] == q;
      assert Under(step, paths)[i] == [step] + q;
    }
  }

  lemma FollowUnder(tree: Json, step: Step, q: seq<Step>)
    ensures var next := NextNode(tree, step);
            Follow(tree, [step] + q) == if next.Some? then Follow(next.value, q) else None
  {
    assert ([step] + q)[1..] == q;
  }

  lemma {:induction false} WalkReports(value: Json, path: string)
    requires Dictionaries(value)
    ensures WalkOutcome(value, path, Walk(value, path), RefPaths(value))
    decreases value, 1
  {
    match value
    case JObject(members) =>
      assert members[0..] == members;
      WalkMembersReport(value, members, 0, path);
    case JArray(items) =>
      assert items[0..] == items;
      WalkItemsReport(value, items, 0, path);
    case _ =>
  }

  /** Two parts of one walk, one after the other. */
  lemma OutcomesJoin(tree: Json, path: string, first: References, firstPaths: seq<seq<Step>>,
                     rest: References, restPaths: seq<seq<Step>>)
    requires WalkOutcome(tree, path, first, firstPaths) && WalkOutcome(tree, path, rest, restPaths)
    ensures WalkOutcome(tree, path, if first.Ok? then Prepend(first.value, rest) else first, firstPaths + restPaths)
  {
    var all := firstPaths + restPaths;
    if first.Err? {
      var q :| q in firstPaths && Follow(tree, q).Some? && !Follow(tree, q).value.JString?;
      assert q in all;
    } else if rest.Err? {
      var q :| q in restPaths && Follow(tree, q).Some? && !Follow(tree, q).value.JString?;
      assert q in all;
    }
  }

  lemma OwnReported(tree: Json, key: string, child: Json, path: string)
    requires NextNode(tree, Key(key)) == Some(child)
    ensures WalkOutcome(tree, path, OwnReference(key, child, path + "/" + key),
                        if key == "$ref" then [[Key(key)]] else [])
  {
    var q := [Key(key)];
    FollowUnder(tree, Key(key), []);
    assert q + [] == q;
    assert Follow(tree, q) == Some(child);
    assert Render(q) == "/" + key;
    assert path + ("/" + key) == path + "/" + key;
    assert q in [q];
  }

  lemma {:induction false} WalkMembersReport(tree: Json, members: seq<Member>, from: nat, path: string)
    requires tree == JObject(members) && Dictionaries(tree) && from <= |members|
    ensures WalkOutcome(tree, path, WalkMembers(members[from..], path), MemberPaths(members[from..]))
    decreases tree, 0, |members| - from
  {
    if from < |members| {
      hide WalkOutcome;
      var rest := members[from..];
      var key, child := members[from].key, members[from].value;
      assert rest[0] == members[from] && rest[1..] == members[from+1..];
      LookupAt(members, from);
      forall q: seq<Step> ensures Follow(tree, [Key(key)] + q) == Follow(child, q) {
        FollowUnder(tree, Key(key), q);
      }
      var childPath := path + "/" + key;
      assert path + Render([Key(key)]) == childPath by {
        assert [Key(key)][1..] == [];
      }
      var own, below, later := OwnReference(key, child, childPath), Walk(child, childPath), WalkMembers(rest[1..], path);
      OwnReported(tree, key, child, path);
      WalkReports(child, childPath);
      ReportsUnder(tree, child, Key(key), path, below, RefPaths(child));
      WalkMembersReport(tree, members, from + 1, path);
      var ownPaths := if key == "$ref" then [[Key(key)]] else [];
      var belowPaths := Under(Key(key), RefPaths(child));
      OutcomesJoin(tree, path, own, ownPaths, below, belowPaths);
      OutcomesJoin(tree, path, if own.Ok? then Prepend(own.value, below) else own, ownPaths + belowPaths,
                   later, MemberPaths(rest[1..]));
    } else {
      assert members[from..] == [];
    }
  }

  lemma {:induction false} WalkItemsReport(tree: Json, items: seq<Json>, from: nat, path: string)
    requires tree == JArray(items) && Dictionaries(tree) && from <= |items|
    ensures WalkOutcome(tree, path, WalkItems(items[from..], from, path), ItemPaths(items[from..], from))
    decreases tree, 0, |items| - from
  {
    if from < |items| {
      assert items[from..][1..] == items[from+1..];
      forall q: seq<Step> ensures Follow(tree, [At(from)] + q) == Follow(items[from], q) {
        FollowUnder(tree, At(from), q);
      }
      var childPath := path + "/" + Decimal(from);
      RenderUnder(path, At(from), []);
      assert path + Render([At(from)]) == childPath;
      WalkReports(items[from], childPath);
      ReportsUnder(tree, items[from], At(from), path, Walk(items[from], childPath), RefPaths(items[from]));
      WalkItemsReport(tree, items, from + 1, path);
    }
  }

  /** The walk fails exactly on a tree with a `$ref` that is not a string, and
      otherwise lists every `$ref` of the tree once, with its string. */
  lemma WalkIsExact(tree: Json)
    requires Dictionaries(tree)
    ensures Walk(tree, "$").Ok? <==> forall q :: IsRefKey(tree, q) ==> IsReference(tree, q)
    ensures Walk(tree, "$").Ok? ==>
              exists paths :: NoDup(paths) && (forall q :: q in paths <==> IsReference(tree, q))
                && AllReported(tree, "$", Walk(tree, "$").value, paths)
  {
    var walk, paths := Walk(tree, "$"), RefPaths(tree);
    RefPathsExact(tree);
    WalkReports(tree, "$");
    if walk.Ok? {
      forall q | IsRefKey(tree, q) ensures IsReference(tree, q) {
        var i :| 0 <= i < |paths| && paths[i] == q;
        assert Reports(tree, "$", walk.value[i], paths[i]);
      }
    }
  }

  lemma {:induction false} ResolveAllSpec(bundle: Json, references: seq<(string, string)>)
    ensures ResolveAll(bundle, references).Ok? <==> forall r :: r in references ==> Resolve(bundle, r.1).Ok?
    ensures ResolveAll(bundle, references).Ok? ==> ResolveAll(bundle, references).value == references
    ensures var all := ResolveAll(bundle, references);
            all.Err? ==> exists r :: r in references && Resolve(bundle, r.1) == Err(all.error)
  {
    if references != [] {
      ResolveAllSpec(bundle, references[1..]);
      assert references == [references[0]] + references[1..];
      assert forall r :: r in references <==> r == references[0] || r in references[1..];
    }
  }

  lemma ReportedTargets(tree: Json, entries: seq<(string, string)>, paths: seq<seq<Step>>)
    requires AllReported(tree, "$", entries, paths) && forall q :: q in paths <==> IsReference(tree, q)
    ensures forall r :: r in entries ==> exists q :: IsReference(tree, q) && Follow(tree, q).value.s == r.1
    ensures forall q :: IsReference(tree, q) ==> exists r :: r in entries && Follow(tree, q).value.s == r.1
  {
    hide Follow, Render;
    forall r | r in entries ensures exists q :: IsReference(tree, q) && Follow(tree, q).value.s == r.1 {
      var i :| 0 <= i < |entries| && entries[i] == r;
      assert Reports(tree, "$", entries[i], paths[i]) && paths[i] in paths;
    }
    forall q | IsReference(tree, q) ensures exists r :: r in entries && Follow(tree, q).value.s == r.1 {
      var i :| 0 <= i < |paths| && paths[i] == q;
      assert Reports(tree, "$", entries[i], paths[i]) && entries[i] in entries;
    }
  }

  lemma {:induction false} PartsRaise(current: Json, parts: seq<string>)
    ensures ResolveParts(current, parts).Err? ==> ResolveParts(current, parts).error == Unresolvable
    decreases |parts|
  {
    hide Child;
    if parts != [] && Child(current, DecodePart(parts[0])).Some? {
      PartsRaise(Child(current, DecodePart(parts[0])).value, parts[1..]);
    }
  }

  /** The two errors of resolution: a reference that is not local, and one that is local
      but leads nowhere. */
  lemma ResolveRaises(document: Json, reference: string)
    ensures Resolve(document, reference) == Err(NonLocal) <==> reference != "#" && (|reference| < 2 || reference[0] != '#' || reference[1] != '/')
    ensures Resolve(document, reference).Err? ==> Resolve(document, reference).error in {NonLocal, Unresolvable}
  {
    hide ResolveParts, Split;
    if "#/" <= reference {
      PartsRaise(document, Split(reference[2..], '/'));
    }
    LocalPrefix(reference);
  }

  lemma LocalPrefix(reference: string)
    ensures "#/" <= reference <==> |reference| >= 2 && reference[0] == '#' && reference[1] == '/'
  {
    var p := "#/";
    if |reference| >= 2 && reference[0] == p[0] && reference[1] == p[1] {
      assert reference[..2] == p;
    }
  }

  /** The gate accepts a bundle exactly when every `$ref` at any depth is a
      string that resolves inside the same document. */
  lemma CrawlIsExact(bundle: Json)
    requires Dictionaries(bundle)
    ensures Crawl(bundle).Ok? <==>
              forall q :: IsRefKey(bundle, q) ==>
                IsReference(bundle, q) && Resolve(bundle, Follow(bundle, q).value.s).Ok?
  {
    hide Follow, Resolve, Walk, AllReported, Dictionaries;
    WalkIsExact(bundle);
    var walk := Walk(bundle, "$");
    if walk.Ok? {
      ResolveAllSpec(bundle, walk.value);
      var paths :| (forall q :: q in paths <==> IsReference(bundle, q)) && AllReported(bundle, "$", walk.value, paths);
      ReportedTargets(bundle, walk.value, paths);
    }
  }

  lemma CrawlParts(bundle: Json)
    ensures var walk, r := Walk(bundle, "$"), Crawl(bundle);
            if walk.Err? then r == walk else r == ResolveAll(bundle, walk.value)
  {
    hide Walk, ResolveAll;
  }

  /** An accepted bundle is reported reference by reference, each once, with its path and
      its string. A refused one is refused for a `$ref` that is not a string as soon as
      there is one, and otherwise with the error of a reference that does not resolve. */
  lemma CrawlReports(bundle: Json)
    requires Dictionaries(bundle)
    ensures Crawl(bundle).Ok? ==>
              exists paths :: NoDup(paths) && (forall q :: q in paths <==> IsReference(bundle, q))
                && AllReported(bundle, "$", Crawl(bundle).value, paths)
    ensures Crawl(bundle) == Err(NonStringRef) <==> exists q :: IsRefKey(bundle, q) && !IsReference(bundle, q)
    ensures Crawl(bundle).Err? && Crawl(bundle).error != NonStringRef ==>
              exists q :: IsReference(bundle, q) && Resolve(bundle, Follow(bundle, q).value.s) == Err(Crawl(bundle).error)
  {
    hide *;
    WalkIsExact(bundle);
    WalkRaises(bundle);
    CrawlParts(bundle);
    var walk := Walk(bundle, "$");
    if walk.Ok? {
      ResolveAllSpec(bundle, walk.value);
      if ResolveAll(bundle, walk.value).Err? {
        var paths :| (forall q :: q in paths <==> IsReference(bundle, q)) && AllReported(bundle, "$", walk.value, paths);
        FailedReference(bundle, walk.value, paths);
      }
    }
  }

  lemma FailedReference(bundle: Json, entries: seq<(string, string)>, paths: seq<seq<Step>>)
    requires AllReported(bundle, "$", entries, paths) && forall q :: q in paths <==> IsReference(bundle, q)
    requires ResolveAll(bundle, entries).Err?
    ensures var e := ResolveAll(bundle, entries).error;
            e != NonStringRef && exists q :: IsReference(bundle, q) && Resolve(bundle, Follow(bundle, q).value.s) == Err(e)
  {
    hide Follow, Resolve, AllReported, ResolveAll;
    ResolveAllSpec(bundle, entries);
    ReportedTargets(bundle, entries, paths);
    var r :| r in entries && Resolve(bundle, r.1) == Err(ResolveAll(bundle, entries).error);
    ResolveRaises(bundle, r.1);
  }

  lemma WalkRaises(tree: Json)
    requires Dictionaries(tree)
    ensures Walk(tree, "$").Err? ==> Walk(tree, "$").error == NonStringRef
  {
    hide Walk;
    WalkReports(tree, "$");
  }
}
