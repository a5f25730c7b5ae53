/** JSON documents as Python holds them after loading: dictionaries keep their
    insertion order and have distinct keys. */
module Json {
  import opened Orders
  import opened Results

  datatype Json =
    | JNull
    | JBool(b: bool)
    | JInt(n: int)
    | JString(s: string)
    | JArray(items: seq<Json>)
    | JObject(members: seq<Member>)

  datatype Member = Member(key: string, value: Json)

  function Keys(members: seq<Member>): (keys: seq<string>)
    ensures |keys| == |members| && forall i :: 0 <= i < |keys| ==> keys[i] == members[i].key
  {
    seq(|members|, i requires 0 <= i < |members| => members[i].key)
  }

  /** Every dictionary at any depth has distinct keys. */
  predicate Dictionaries(j: Json) {
    match j
    case JArray(items) => forall i :: 0 <= i < |items| ==> Dictionaries(items[i])
    case JObject(members) =>
      && NoDup(Keys(members))
      && forall i :: 0 <= i < |members| ==> Dictionaries(members[i].value)
    case _ => true
  }

  /** `mapping[key]`, when the key is there. */
  function Lookup(members: seq<Member>, key: string): Option<Json> {
    if members == [] then None
    else if members[0].key == key then Some(members[0].value)
    else Lookup(members[1..], key)
  }

  lemma {:induction false} LookupAt(members: seq<Member>, i: nat)
    requires NoDup(Keys(members)) && i < |members|
    ensures Lookup(members, members[i].key) == Some(members[i].value)
  {
    if i > 0 {
      assert Keys(members)[0] != Keys(members)[i];
      assert Keys(members[1..]) == Keys(members)[1..];
      LookupAt(members[1..], i - 1);
    }
  }

  lemma {:induction false} LookupIndex(members: seq<Member>, key: string) returns (i: nat)
    requires Lookup(members, key).Some?
    ensures i < |members| && members[i].key == key && Lookup(members, key) == Some(members[i].value)
  {
    if members[0].key == key {
      i := 0;
    } else {
      i := LookupIndex(members[1..], key);
      i := i + 1;
    }
  }

  lemma {:induction false} LookupMissing(members: seq<Member>, key: string)
    ensures Lookup(members, key) == None <==> key !in Keys(members)
  {
    if members != [] {
      LookupMissing(members[1..], key);
      assert Keys(members) == [members[0].key] + Keys(members[1..]);
    }
  }
}
