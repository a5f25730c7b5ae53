/** Total orders, the lexicographic order of Python strings and tuples, and
    Python's stable `sorted` with the facts that make a sort reproducible. */
module Orders {

  ghost predicate Total<T(!new)>(le: (T, T) -> bool) {
    forall x, y :: le(x, y) || le(y, x)
  }

  ghost predicate Transitive<T(!new)>(le: (T, T) -> bool) {
    forall x, y, z :: le(x, y) && le(y, z) ==> le(x, z)
  }

  ghost predicate Preorder<T(!new)>(le: (T, T) -> bool) {
    Total(le) && Transitive(le)
  }

  /** Ties under `le` never join two different members of `s`. */
  ghost predicate Separates<T(!new)>(le: (T, T) -> bool, s: seq<T>) {
    forall x, y :: x in s && y in s && le(x, y) && le(y, x) ==> x == y
  }

  ghost predicate Sorted<T>(le: (T, T) -> bool, s: seq<T>) {
    forall i, j :: 0 <= i < j < |s| ==> le(s[i], s[j])
  }

  predicate NoDup<T(==)>(s: seq<T>) {
    forall i, j :: 0 <= i < j < |s| ==> s[i] != s[j]
  }

  function Insert<T>(le: (T, T) -> bool, x: T, s: seq<T>): (r: seq<T>)
    ensures multiset(r) == multiset{x} + multiset(s)
    ensures |r| == |s| + 1
  {
    if s == [] then [x]
    else if le(x, s[0]) then [x] + s
    else
      assert s == [s[0]] + s[1..];
      [s[0]] + Insert(le, x, s[1..])
  }

  /** Python's `sorted`: stable, so equal keys keep their input order. */
  function SortBy<T>(le: (T, T) -> bool, s: seq<T>): (r: seq<T>)
    ensures multiset(r) == multiset(s)
    ensures |r| == |s|
  {
    if s == [] then []
    else
      assert s == [s[0]] + s[1..];
      Insert(le, s[0], SortBy(le, s[1..]))
  }

  lemma SameMembers<T>(a: seq<T>, b: seq<T>)
    requires multiset(a) == multiset(b)
    ensures forall x :: x in a <==> x in b
    ensures |a| == |b|
  {
    forall x ensures x in a <==> x in b {
      assert x in a <==> x in multiset(a);
      assert x in b <==> x in multiset(b);
    }
    assert |multiset(a)| == |a| && |multiset(b)| == |b|;
  }

  lemma {:induction false} InsertSorted<T(!new)>(le: (T, T) -> bool, x: T, s: seq<T>)
    requires Preorder(le) && Sorted(le, s)
    ensures Sorted(le, Insert(le, x, s))
  {
    if s != [] && !le(x, s[0]) {
      var rest := Insert(le, x, s[1..]);
      InsertSorted(le, x, s[1..]);
      forall y | y in rest ensures le(s[0], y) {
        assert y in multiset(rest);
        assert y == x || y in s[1..];
      }
    }
  }

  /** The result of a sort is ordered. */
  lemma {:induction false} SortBySorted<T(!new)>(le: (T, T) -> bool, s: seq<T>)
    requires Preorder(le)
    ensures Sorted(le, SortBy(le, s))
  {
    if s != [] {
      SortBySorted(le, s[1..]);
      InsertSorted(le, s[0], SortBy(le, s[1..]));
    }
  }

  lemma FirstIsLeast<T(!new)>(le: (T, T) -> bool, s: seq<T>, x: T)
    requires Preorder(le) && Sorted(le, s) && x in s
    ensures le(s[0], x)
  {
    var i :| 0 <= i < |s| && s[i] == x;
    assert le(s[0], s[0]);
  }

  lemma WithoutFirst<T>(s: seq<T>)
    requires s != []
    ensures s == [s[0]] + s[1..] && multiset(s[1..]) == multiset(s) - multiset{s[0]}
  {
    assert s == [s[0]] + s[1..];
  }

  /** A multiset has only one sorted arrangement when no two members tie. */
  lemma {:induction false} SortedUnique<T(!new)>(le: (T, T) -> bool, a: seq<T>, b: seq<T>)
    requires Preorder(le) && Separates(le, a)
    requires Sorted(le, a) && Sorted(le, b) && multiset(a) == multiset(b)
    ensures a == b
  {
    hide Preorder, Sorted, Separates;
    SameMembers(a, b);
    if a != [] {
      assert a[0] in b && b[0] in a;
      FirstIsLeast(le, a, b[0]);
      FirstIsLeast(le, b, a[0]);
      NoTie(le, a, a[0], b[0]);
      WithoutFirst(a);
      WithoutFirst(b);
      SortedTail(le, a);
      SortedTail(le, b);
      SortedUnique(le, a[1..], b[1..]);
    }
  }

  lemma NoTie<T(!new)>(le: (T, T) -> bool, s: seq<T>, x: T, y: T)
    requires Separates(le, s) && x in s && y in s && le(x, y) && le(y, x)
    ensures x == y
  {
  }

  lemma SortedTail<T(!new)>(le: (T, T) -> bool, s: seq<T>)
    requires Sorted(le, s) && s != []
    ensures Sorted(le, s[1..])
    ensures Separates(le, s) ==> Separates(le, s[1..])
  {
    assert forall x :: x in s[1..] ==> x in s;
  }

  /** Sorting forgets the input order when no two members tie. */
  lemma SortForgetsOrder<T(!new)>(le: (T, T) -> bool, a: seq<T>, b: seq<T>)
    requires Preorder(le) && Separates(le, a) && multiset(a) == multiset(b)
    ensures SortBy(le, a) == SortBy(le, b)
  {
    SortBySorted(le, a);
    SortBySorted(le, b);
    SameMembers(a, SortBy(le, a));
    SortedUnique(le, SortBy(le, a), SortBy(le, b));
  }

  // ---- The order of strings and of tuples of strings ----

  ghost predicate StrictOrder<T(!new)>(lt: (T, T) -> bool) {
    && (forall x, y :: lt(x, y) ==> !lt(y, x))
    && (forall x, y :: x != y ==> lt(x, y) || lt(y, x))
    && (forall x, y, z :: lt(x, y) && lt(y, z) ==> lt(x, z))
  }

  predicate LexLeq<T(==)>(lt: (T, T) -> bool, a: seq<T>, b: seq<T>) {
    if a == [] then true
    else if b == [] then false
    else if a[0] == b[0] then LexLeq(lt, a[1..], b[1..])
    else lt(a[0], b[0])
  }

  lemma {:induction false} LexTotal<T(!new)>(lt: (T, T) -> bool, a: seq<T>, b: seq<T>)
    requires StrictOrder(lt)
    ensures LexLeq(lt, a, b) || LexLeq(lt, b, a)
    ensures LexLeq(lt, a, b) && LexLeq(lt, b, a) ==> a == b
  {
    if a != [] && b != [] && a[0] == b[0] {
      LexTotal(lt, a[1..], b[1..]);
      assert a == [a[0]] + a[1..] && b == [b[0]] + b[1..];
    }
  }

  lemma {:induction false} LexTransitive<T(!new)>(lt: (T, T) -> bool, a: seq<T>, b: seq<T>, c: seq<T>)
    requires StrictOrder(lt) && LexLeq(lt, a, b) && LexLeq(lt, b, c)
    ensures LexLeq(lt, a, c)
  {
    if a != [] && a[0] == b[0] == c[0] {
      LexTransitive(lt, a[1..], b[1..], c[1..]);
    }
  }

  predicate CharLess(c: char, d: char) { c < d }

  /** Python compares strings code point by code point. */
  predicate StringLeq(a: string, b: string) { LexLeq(CharLess, a, b) }

  predicate StringLess(a: string, b: string) { StringLeq(a, b) && a != b }

  /** Python compares tuples member by member. */
  predicate TupleLeq(a: seq<string>, b: seq<string>) { LexLeq(StringLess, a, b) }

  lemma StringOrder()
    ensures Preorder(StringLeq)
    ensures forall a, b :: StringLeq(a, b) && StringLeq(b, a) ==> a == b
  {
    forall a, b
      ensures StringLeq(a, b) || StringLeq(b, a)
      ensures StringLeq(a, b) && StringLeq(b, a) ==> a == b
    {
      LexTotal(CharLess, a, b);
    }
    forall a, b, c | StringLeq(a, b) && StringLeq(b, c) ensures StringLeq(a, c) {
      LexTransitive(CharLess, a, b, c);
    }
  }

  lemma TupleOrder()
    ensures Preorder(TupleLeq)
    ensures forall a, b :: TupleLeq(a, b) && TupleLeq(b, a) ==> a == b
  {
    StringOrder();
    assert StrictOrder(StringLess);
    forall a, b
      ensures TupleLeq(a, b) || TupleLeq(b, a)
      ensures TupleLeq(a, b) && TupleLeq(b, a) ==> a == b
    {
      LexTotal(StringLess, a, b);
    }
    forall a, b, c | TupleLeq(a, b) && TupleLeq(b, c) ensures TupleLeq(a, c) {
      LexTransitive(StringLess, a, b, c);
    }
  }

  // ---- The same orders, told by the first difference ----

  /** `x` and `y` agree before `i`; there `x` ends first or has the smaller code
      point. */
  predicate FirstDifference(x: string, y: string, i: nat) {
    && i <= |x| && i <= |y| && x[..i] == y[..i]
    && if i < |x| then i < |y| && x[i] < y[i] else i < |y|
  }

  /** `x` stands before `y`: it is a proper prefix, or has the smaller code point at
      the first difference. */
  ghost predicate Precedes(x: string, y: string) { exists i :: FirstDifference(x, y, i) }

  predicate FirstMember(a: seq<string>, b: seq<string>, i: nat) {
    i <= |a| && i <= |b| && a[..i] == b[..i]
  }

  /** The tuples agree before place `i`; there `a` ends first, or its member stands
      before the member of `b`. */
  ghost predicate FirstMemberBefore(a: seq<string>, b: seq<string>, i: nat) {
    FirstMember(a, b, i) && if i < |a| then i < |b| && a[i] != b[i] && Precedes(a[i], b[i]) else i < |b|
  }

  ghost predicate TuplePrecedes(a: seq<string>, b: seq<string>) { exists i :: FirstMemberBefore(a, b, i) }

  /** The sequences agree before `i` and not at `i`. */
  ghost predicate Differ<T(!new)>(a: seq<T>, b: seq<T>, i: nat) {
    && i <= |a| && i <= |b|
    && (forall k :: 0 <= k < i ==> a[k] == b[k])
    && (i < |a| && i < |b| ==> a[i] != b[i])
  }

  lemma {:induction false} LexByFirstDifference<T(!new)>(lt: (T, T) -> bool, a: seq<T>, b: seq<T>) returns (i: nat)
    ensures Differ(a, b, i)
    ensures LexLeq(lt, a, b) <==> i == |a| || (i < |b| && lt(a[i], b[i]))
  {
    if a == [] || b == [] || a[0] != b[0] {
      i := 0;
    } else {
      i := LexByFirstDifference(lt, a[1..], b[1..]);
      forall k | 0 < k < i + 1 ensures a[k] == b[k] {
        assert a[1..][k-1] == b[1..][k-1];
      }
      i := i + 1;
    }
  }

  /** Two sequences that both continue or end at `i` and `j` differ at one place only. */
  lemma OneDifference<T(!new)>(a: seq<T>, b: seq<T>, i: nat, j: nat)
    requires Differ(a, b, i) && Differ(a, b, j)
    requires i < |a| || i < |b|
    requires j < |a| || j < |b|
    ensures i == j
  {
  }

  /** The order by code points, member by member, is the order of the first difference. */
  lemma StringLeqMeans(x: string, y: string)
    ensures StringLeq(x, y) <==> x == y || Precedes(x, y)
  {
    var i := LexByFirstDifference(CharLess, x, y);
    if x == y {
      assert i == |x|;
    } else {
      assert i == |x| == |y| ==> x == y;
      if StringLeq(x, y) {
        assert FirstDifference(x, y, i);
      }
      if j: nat :| FirstDifference(x, y, j) {
        PrefixAgrees(x, y, j);
        OneDifference(x, y, i, j);
      }
    }
  }

  lemma PrefixAgrees<T>(a: seq<T>, b: seq<T>, j: nat)
    requires j <= |a| && j <= |b| && a[..j] == b[..j]
    ensures forall k :: 0 <= k < j ==> a[k] == b[k]
  {
    forall k | 0 <= k < j ensures a[k] == b[k] {
      assert a[k] == a[..j][k] && b[k] == b[..j][k];
    }
  }

  lemma TupleLeqMeans(a: seq<string>, b: seq<string>)
    ensures TupleLeq(a, b) <==> a == b || TuplePrecedes(a, b)
  {
    hide StringLeq, Precedes;
    var i := LexByFirstDifference(StringLess, a, b);
    if a == b {
      assert i == |a|;
    } else {
      assert i == |a| == |b| ==> a == b;
      if i < |a| && i < |b| {
        StringLeqMeans(a[i], b[i]);
      }
      if TupleLeq(a, b) {
        assert FirstMemberBefore(a, b, i);
      }
      if j: nat :| FirstMemberBefore(a, b, j) {
        PrefixAgrees(a, b, j);
        OneDifference(a, b, i, j);
      }
    }
  }

  lemma LeqIsNotPreceded()
    ensures forall x: string, y: string :: StringLeq(x, y) <==> !Precedes(y, x)
    ensures forall a: seq<string>, b: seq<string> :: TupleLeq(a, b) <==> !TuplePrecedes(b, a)
  {
    hide StringLeq, TupleLeq, Precedes, TuplePrecedes;
    StringOrder();
    TupleOrder();
    forall x: string, y: string ensures StringLeq(x, y) <==> !Precedes(y, x) {
      StringLeqMeans(x, y);
      StringLeqMeans(y, x);
      NothingPrecedesItself(x);
    }
    forall a: seq<string>, b: seq<string> ensures TupleLeq(a, b) <==> !TuplePrecedes(b, a) {
      TupleLeqMeans(a, b);
      TupleLeqMeans(b, a);
      NoTuplePrecedesItself(a);
    }
  }

  lemma NothingPrecedesItself(x: string)
    ensures !Precedes(x, x)
  {
  }

  lemma NoTuplePrecedesItself(a: seq<string>)
    ensures !TuplePrecedes(a, a)
  {
  }

  // ---- sorted({...}): a set of strings as one reproducible list ----

  function Distinct<T(==, !new)>(s: seq<T>): (r: seq<T>)
    ensures forall x :: x in r <==> x in s
    ensures NoDup(r)
    ensures |r| <= |s|
  {
    if s == [] then []
    else
      var rest := Distinct(s[1..]);
      if s[0] in rest then rest else [s[0]] + rest
  }

  function SortedSet(s: seq<string>): seq<string> { SortBy(StringLeq, Distinct(s)) }

  lemma {:induction false} NoDupMultiplicity<T>(s: seq<T>, x: T)
    requires NoDup(s)
    ensures multiset(s)[x] == if x in s then 1 else 0
  {
    if s != [] {
      assert s == [s[0]] + s[1..];
      NoDupMultiplicity(s[1..], x);
    }
  }

  lemma NoDupSameMembers<T>(a: seq<T>, b: seq<T>)
    requires NoDup(a) && NoDup(b) && (forall x :: x in a <==> x in b)
    ensures multiset(a) == multiset(b)
  {
    forall x ensures multiset(a)[x] == multiset(b)[x] {
      NoDupMultiplicity(a, x);
      NoDupMultiplicity(b, x);
    }
  }

  /** `sorted({...})` depends on the members only. */
  lemma SortedSetForgetsOrder(a: seq<string>, b: seq<string>)
    requires forall x :: x in a <==> x in b
    ensures SortedSet(a) == SortedSet(b)
    ensures forall x :: x in SortedSet(a) <==> x in a
  {
    StringOrder();
    NoDupSameMembers(Distinct(a), Distinct(b));
    SortForgetsOrder(StringLeq, Distinct(a), Distinct(b));
    SameMembers(Distinct(a), SortedSet(a));
  }

  lemma ConcatNoDup<T>(a: seq<T>, b: seq<T>)
    ensures NoDup(a + b) <==> NoDup(a) && NoDup(b) && forall x :: x in a ==> x !in b
  {
    var c := a + b;
    if NoDup(c) {
      assert forall i :: 0 <= i < |a| ==> c[i] == a[i];
      assert forall j :: 0 <= j < |b| ==> c[|a| + j] == b[j];
    } else {
      var i, j :| 0 <= i < j < |c| && c[i] == c[j];
      assert i < |a| <= j ==> a[i] in a && b[j-|a|] in b;
    }
  }

  // ---- Lists as sets ----

  function Elems<T(==)>(s: seq<T>): set<T> { set x | x in s }

  lemma {:induction false} ElemsSize<T>(s: seq<T>)
    ensures |Elems(s)| <= |s|
    ensures NoDup(s) <==> |Elems(s)| == |s|
  {
    if s != [] {
      ElemsSize(s[1..]);
      assert Elems(s) == {s[0]} + Elems(s[1..]);
      if NoDup(s) {
        assert s[0] !in s[1..];
      } else if s[0] !in s[1..] {
        assert !NoDup(s[1..]) by {
          var i, j :| 0 <= i < j < |s| && s[i] == s[j];
          assert s[1..][j-1] == s[j] && (i == 0 || s[1..][i-1] == s[i]);
        }
      }
    }
  }

  lemma PermutationNoDup<T>(a: seq<T>, b: seq<T>)
    requires multiset(a) == multiset(b) && NoDup(a)
    ensures NoDup(b)
  {
    SameMembers(a, b);
    assert Elems(a) == Elems(b);
    ElemsSize(a);
    ElemsSize(b);
  }

  function Take<T>(s: seq<T>, n: nat): (r: seq<T>)
    ensures forall x :: x in r ==> x in s
    ensures r <= s && |r| <= n
    ensures |s| <= n ==> r == s
  {
    if |s| <= n then s else s[..n]
  }
}
