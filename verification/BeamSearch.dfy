/** The bounded search of `_select_exact`: its specification as a function of
    the scored candidates, the loops that compute it, and what every state of
    every beam satisfies. */
module BeamSearch {
  import opened Orders
  import opened Results
  import opened Contracts
  import opened Scoring

  datatype Scored = Scored(opportunity: Opportunity, baseScore: real)

  datatype State = State(selected: seq<nat>, score: real, minutes: nat)

  datatype Problem = Problem(scored: seq<Scored>, budget: nat, policy: PlanningPolicy) {
    function Item(i: nat): Opportunity
      requires i < |scored|
    {
      scored[i].opportunity
    }
  }

  const ROOT := State([], 0.0, 0)

  /** The width every caller of the search uses. */
  const BEAM_WIDTH: nat := 512

  predicate InRange(p: Problem, selected: seq<nat>) {
    forall k :: 0 <= k < |selected| ==> selected[k] < |p.scored|
  }

  function Items(p: Problem, selected: seq<nat>): (items: seq<Opportunity>)
    requires InRange(p, selected)
    ensures |items| == |selected|
    ensures forall k :: 0 <= k < |selected| ==> items[k] == p.Item(selected[k])
  {
    seq(|selected|, k requires 0 <= k < |selected| => p.Item(selected[k]))
  }

  function Minutes(p: Problem, selected: seq<nat>): nat
    requires InRange(p, selected)
  {
    if selected == [] then 0
    else
      var last := |selected| - 1;
      Minutes(p, selected[..last]) + p.Item(selected[last]).targetMinutes
  }

  function IdTuple(p: Problem, selected: seq<nat>): seq<string>
    requires InRange(p, selected)
  {
    IdsOf(Items(p, selected))
  }

  // ---- Which selections the constraints allow ----

  predicate Increasing(selected: seq<nat>) {
    forall i, j :: 0 <= i < j < |selected| ==> selected[i] < selected[j]
  }

  predicate Compatible(p: Problem, i: nat, j: nat)
    requires i < |p.scored| && j < |p.scored|
  {
    Overlap(p.Item(i), p.Item(j)) <= p.policy.maximumOverlap
  }

  /** The independent reading of the constraints: a set of candidates, listed by
      increasing index, within the minutes budget and pairwise under the cap. */
  predicate Feasible(p: Problem, selected: seq<nat>) {
    && InRange(p, selected)
    && Increasing(selected)
    && Minutes(p, selected) <= p.budget
    && forall i, j :: 0 <= i < j < |selected| ==> Compatible(p, selected[i], selected[j])
  }

  predicate FeasibleOfSize(p: Problem, selected: seq<nat>, k: nat) {
    Feasible(p, selected) && |selected| == k
  }

  /** The state that describes a selection. */
  function StateOf(p: Problem, selected: seq<nat>): State
    requires InRange(p, selected)
  {
    State(selected, PathScore(Items(p, selected), p.policy), Minutes(p, selected))
  }

  // ---- One depth of the search ----

  predicate Admits(p: Problem, s: State, index: nat)
    requires InRange(p, s.selected) && index < |p.scored|
  {
    && s.minutes + p.Item(index).targetMinutes <= p.budget
    && forall k :: 0 <= k < |s.selected| ==> Compatible(p, index, s.selected[k])
  }

  function Extend(p: Problem, s: State, index: nat): State
    requires InRange(p, s.selected) && index < |p.scored|
  {
    State(s.selected + [index],
          s.score + MarginalScore(p.Item(index), Items(p, s.selected), p.policy),
          s.minutes + p.Item(index).targetMinutes)
  }

  function Start(s: State): nat {
    if s.selected == [] then 0 else s.selected[|s.selected|-1] + 1
  }

  function Children(p: Problem, s: State, index: nat): seq<State>
    requires InRange(p, s.selected)
    decreases |p.scored| - index
  {
    if index >= |p.scored| then []
    else if Admits(p, s, index) then [Extend(p, s, index)] + Children(p, s, index + 1)
    else Children(p, s, index + 1)
  }

  predicate AllInRange(p: Problem, states: seq<State>) {
    forall s :: s in states ==> InRange(p, s.selected)
  }

  function Expand(p: Problem, states: seq<State>): (r: seq<State>)
    requires AllInRange(p, states)
  {
    if states == [] then []
    else Children(p, states[0], Start(states[0])) + Expand(p, states[1..])
  }

  /** The sort key of a state: best score, then fewest minutes, then identifiers. */
  predicate RankLeq(p: Problem, a: State, b: State) {
    a.score > b.score || (a.score == b.score && (a.minutes < b.minutes || (a.minutes == b.minutes
      && TupleLeq(SafeIds(p, a), SafeIds(p, b)))))
  }

  /** The identifier tuple of a state; every state of a search is in range. */
  function SafeIds(p: Problem, s: State): seq<string> {
    if InRange(p, s.selected) then IdTuple(p, s.selected) else []
  }

  function Rank(p: Problem): (State, State) -> bool {
    (a, b) => RankLeq(p, a, b)
  }

  /** All extensions of a beam, best first, before truncation. */
  function Frontier(p: Problem, beam: seq<State>): seq<State>
    requires AllInRange(p, beam)
  {
    SortBy(Rank(p), Expand(p, beam))
  }

  /** The next beam: the first `width` of the frontier. */
  function Next(p: Problem, width: nat, beam: seq<State>): (r: seq<State>)
    requires AllInRange(p, beam)
    ensures AllInRange(p, r)
    ensures |r| <= width
  {
    ExpandMembers(p, beam);
    SameMembers(Expand(p, beam), Frontier(p, beam));
    Take(Frontier(p, beam), width)
  }

  function Beam(p: Problem, width: nat, depth: nat): (r: seq<State>)
    ensures AllInRange(p, r)
  {
    if depth == 0 then [ROOT] else Next(p, width, Beam(p, width, depth - 1))
  }

  // ---- Members of an expansion ----

  lemma {:induction false} ChildrenMembers(p: Problem, s: State, index: nat)
    requires InRange(p, s.selected)
    ensures forall t :: t in Children(p, s, index) <==>
              exists i :: index <= i < |p.scored| && Admits(p, s, i) && t == Extend(p, s, i)
    decreases |p.scored| - index
  {
    if index < |p.scored| {
      ChildrenMembers(p, s, index + 1);
      forall t
        ensures t in Children(p, s, index) <==>
          exists i :: index <= i < |p.scored| && Admits(p, s, i) && t == Extend(p, s, i)
      {
        var later := exists i :: index + 1 <= i < |p.scored| && Admits(p, s, i) && t == Extend(p, s, i);
        assert t in Children(p, s, index + 1) <==> later;
        assert t in Children(p, s, index) <==> later || (Admits(p, s, index) && t == Extend(p, s, index));
      }
    }
  }

  /** `t` extends a member of `states` by one later admissible candidate. */
  ghost predicate Extends(p: Problem, states: seq<State>, t: State)
    requires AllInRange(p, states)
  {
    exists s, i :: s in states && Start(s) <= i < |p.scored| && Admits(p, s, i) && t == Extend(p, s, i)
  }

  lemma ExtendInRange(p: Problem, s: State, i: nat)
    requires InRange(p, s.selected) && i < |p.scored|
    ensures InRange(p, Extend(p, s, i).selected)
  {
  }

  lemma {:induction false} ExpandMembers(p: Problem, states: seq<State>)
    requires AllInRange(p, states)
    ensures forall t :: t in Expand(p, states) <==> Extends(p, states, t)
    ensures AllInRange(p, Expand(p, states))
  {
    hide Admits, Extend, Children;
    if states != [] {
      var s, rest := states[0], states[1..];
      ChildrenMembers(p, s, Start(s));
      ExpandMembers(p, rest);
      forall t ensures t in Expand(p, states) <==> Extends(p, states, t) {
        var here := exists i :: Start(s) <= i < |p.scored| && Admits(p, s, i) && t == Extend(p, s, i);
        assert t in Expand(p, states) <==> here || Extends(p, rest, t);
        assert Extends(p, states, t) <==> here || Extends(p, rest, t) by {
          assert forall u :: u in states <==> u == s || u in rest;
        }
      }
    }
    forall t | t in Expand(p, states) ensures InRange(p, t.selected) {
      var s, i :| s in states && Start(s) <= i < |p.scored| && Admits(p, s, i) && t == Extend(p, s, i);
      ExtendInRange(p, s, i);
    }
  }

  // ---- Feasible selections grow one candidate at a time ----

  /** Dropping the last candidate keeps a selection feasible. */
  lemma FeasiblePrefix(p: Problem, selected: seq<nat>)
    requires Feasible(p, selected) && selected != []
    ensures Feasible(p, selected[..|selected|-1])
  {
  }

  lemma ItemsExtend(p: Problem, selected: seq<nat>, i: nat)
    requires InRange(p, selected) && i < |p.scored|
    ensures Items(p, selected + [i]) == Items(p, selected) + [p.Item(i)]
    ensures Minutes(p, selected + [i]) == Minutes(p, selected) + p.Item(i).targetMinutes
  {
    assert (selected + [i])[..|selected|] == selected;
  }

  lemma PathScoreExtend(items: seq<Opportunity>, o: Opportunity, policy: PlanningPolicy)
    ensures PathScore(items + [o], policy) == PathScore(items, policy) + MarginalScore(o, items, policy)
  {
    hide MarginalScore;
    assert (items + [o])[..|items|] == items;
  }

  /** Extending the state of a selection gives the state of the longer selection. */
  lemma ExtendIsStateOf(p: Problem, selected: seq<nat>, i: nat)
    requires InRange(p, selected) && i < |p.scored|
    ensures Extend(p, StateOf(p, selected), i) == StateOf(p, selected + [i])
  {
    hide MarginalScore, Items, Minutes;
    ItemsExtend(p, selected, i);
    PathScoreExtend(Items(p, selected), p.Item(i), p.policy);
  }

  lemma AdmitsIsFeasible(p: Problem, selected: seq<nat>, i: nat)
    requires Feasible(p, selected) && i < |p.scored|
    ensures Start(StateOf(p, selected)) <= i && Admits(p, StateOf(p, selected), i)
       <==> Feasible(p, selected + [i])
  {
    hide PathScore, Overlap;
    ItemsExtend(p, selected, i);
    var longer := selected + [i];
    forall k | 0 <= k < |selected| ensures Compatible(p, i, selected[k]) == Compatible(p, longer[k], longer[|selected|]) {
      OverlapSymmetric(p.Item(i), p.Item(selected[k]));
    }
    if Feasible(p, longer) && selected != [] {
      assert longer[|selected|-1] < longer[|selected|];
    }
  }

  /** What every state of every beam satisfies. */
  predicate Sound(p: Problem, s: State, depth: nat) {
    FeasibleOfSize(p, s.selected, depth) && s == StateOf(p, s.selected)
  }

  lemma {:induction false} ExpandSound(p: Problem, states: seq<State>, depth: nat)
    requires forall s :: s in states ==> Sound(p, s, depth)
    ensures AllInRange(p, states)
    ensures forall t :: t in Expand(p, states) ==> Sound(p, t, depth + 1)
  {
    ExpandMembers(p, states);
    forall t | t in Expand(p, states) ensures Sound(p, t, depth + 1) {
      var s, i :| s in states && Start(s) <= i < |p.scored| && Admits(p, s, i) && t == Extend(p, s, i);
      AdmitsIsFeasible(p, s.selected, i);
      ExtendIsStateOf(p, s.selected, i);
    }
  }

  /** Every beam state is a feasible selection with its exact score and minutes,
      whatever the beam width. */
  lemma {:induction false} BeamSound(p: Problem, width: nat, depth: nat)
    ensures forall s :: s in Beam(p, width, depth) ==> Sound(p, s, depth)
  {
    if depth > 0 {
      BeamSound(p, width, depth - 1);
      NextSound(p, width, Beam(p, width, depth - 1), depth - 1);
    }
  }

  lemma NextSound(p: Problem, width: nat, beam: seq<State>, depth: nat)
    requires forall s :: s in beam ==> Sound(p, s, depth)
    ensures AllInRange(p, beam)
    ensures forall s :: s in Frontier(p, beam) ==> Sound(p, s, depth + 1)
    ensures forall s :: s in Next(p, width, beam) ==> Sound(p, s, depth + 1)
  {
    ExpandSound(p, beam, depth);
    SameMembers(Expand(p, beam), Frontier(p, beam));
  }

  // ---- No selection appears twice ----

  function Selections(states: seq<State>): (r: seq<seq<nat>>)
    ensures |r| == |states|
    ensures forall i :: 0 <= i < |r| ==> r[i] == states[i].selected
  {
    seq(|states|, i requires 0 <= i < |states| => states[i].selected)
  }

  predicate Distinguished(states: seq<State>) {
    forall i, j :: 0 <= i < j < |states| ==> states[i].selected != states[j].selected
  }

  lemma {:induction false} ChildrenDistinguished(p: Problem, s: State, index: nat)
    requires InRange(p, s.selected)
    ensures Distinguished(Children(p, s, index))
    ensures forall t :: t in Children(p, s, index) ==>
              |t.selected| == |s.selected| + 1 && t.selected[..|s.selected|] == s.selected
              && t.selected[|s.selected|] >= index
    decreases |p.scored| - index
  {
    if index < |p.scored| {
      ChildrenDistinguished(p, s, index + 1);
      if Admits(p, s, index) {
        var rest := Children(p, s, index + 1);
        forall j | 0 <= j < |rest| ensures rest[j].selected != Extend(p, s, index).selected {
          assert rest[j] in rest;
        }
      }
    }
  }

  lemma {:induction false} ExpandDistinguished(p: Problem, states: seq<State>, depth: nat)
    requires Distinguished(states) && (forall s :: s in states ==> Sound(p, s, depth))
    ensures AllInRange(p, states)
    ensures Distinguished(Expand(p, states))
    ensures forall t :: t in Expand(p, states) ==>
              |t.selected| == depth + 1 && exists s :: s in states && t.selected[..depth] == s.selected
  {
    hide Children, StateOf, Minutes, Compatible;
    if states != [] {
      var s, rest := states[0], states[1..];
      assert Sound(p, s, depth) by { assert s in states; }
      ExpandDistinguished(p, rest, depth);
      ChildrenDistinguished(p, s, Start(s));
      var a, b := Children(p, s, Start(s)), Expand(p, rest);
      forall i, j | 0 <= i < |a| && 0 <= j < |b| ensures a[i].selected != b[j].selected {
        assert a[i] in a && b[j] in b;
        var u :| u in rest && b[j].selected[..depth] == u.selected;
        assert u.selected != s.selected;
      }
      forall t | t in Expand(p, states)
        ensures |t.selected| == depth + 1 && exists r :: r in states && t.selected[..depth] == r.selected
      {
        if t in a {
          assert t.selected[..depth] == s.selected && s in states;
        } else {
          var u :| u in rest && t.selected[..depth] == u.selected;
          assert u in states;
        }
      }
    }
  }

  lemma DistinguishedMeansNoDup(states: seq<State>)
    ensures Distinguished(states) ==> NoDup(states)
    ensures Distinguished(states) <==> NoDup(Selections(states))
  {
  }

  lemma {:induction false} DistinguishedPermutation(p: Problem, a: seq<State>, b: seq<State>, depth: nat)
    requires Distinguished(a) && multiset(a) == multiset(b)
    requires forall s :: s in a ==> Sound(p, s, depth)
    ensures Distinguished(b)
  {
    SameMembers(a, b);
    PermutationNoDup(a, b);
    forall i, j | 0 <= i < j < |b| ensures b[i].selected != b[j].selected {
      assert b[i] in b && b[j] in b;
    }
  }

  lemma NextDistinguished(p: Problem, width: nat, beam: seq<State>, depth: nat)
    requires Distinguished(beam) && (forall s :: s in beam ==> Sound(p, s, depth))
    ensures AllInRange(p, beam)
    ensures Distinguished(Frontier(p, beam)) && Distinguished(Next(p, width, beam))
  {
    ExpandDistinguished(p, beam, depth);
    ExpandSound(p, beam, depth);
    DistinguishedPermutation(p, Expand(p, beam), Frontier(p, beam), depth + 1);
  }

  /** No two states of a beam have the same selection. */
  lemma {:induction false} BeamDistinguished(p: Problem, width: nat, depth: nat)
    ensures Distinguished(Beam(p, width, depth))
  {
    hide Next, Sound;
    if depth > 0 {
      BeamSound(p, width, depth - 1);
      BeamDistinguished(p, width, depth - 1);
      NextDistinguished(p, width, Beam(p, width, depth - 1), depth - 1);
    }
  }

  // ---- The ranking of states ----

  lemma RankOrder(p: Problem)
    ensures Preorder(Rank(p))
    ensures forall a, b :: RankLeq(p, a, b) && RankLeq(p, b, a) ==>
              a.score == b.score && a.minutes == b.minutes && SafeIds(p, a) == SafeIds(p, b)
  {
    TupleOrder();
    forall a, b, c | RankLeq(p, a, b) && RankLeq(p, b, c) ensures RankLeq(p, a, c) {
      var x, y, z := SafeIds(p, a), SafeIds(p, b), SafeIds(p, c);
      assert TupleLeq(x, y) && TupleLeq(y, z) ==> TupleLeq(x, z);
    }
    forall a, b ensures RankLeq(p, a, b) || RankLeq(p, b, a) {
      var x, y := SafeIds(p, a), SafeIds(p, b);
      assert TupleLeq(x, y) || TupleLeq(y, x);
    }
  }

  /** `a` comes before `b`: a higher score; at equal scores fewer minutes; at equal
      minutes the identifiers that stand first, compared by code points. */
  ghost predicate Better(p: Problem, a: seq<nat>, b: seq<nat>)
    requires InRange(p, a) && InRange(p, b)
  {
    var x, y := PathScore(Items(p, a), p.policy), PathScore(Items(p, b), p.policy);
    x > y || (x == y && (Minutes(p, a) < Minutes(p, b) || (Minutes(p, a) == Minutes(p, b)
      && TuplePrecedes(IdTuple(p, a), IdTuple(p, b)))))
  }

  /** The sort key puts one state before or beside another exactly when the other
      selection is not better. */
  lemma RankLeqIsNotBetter(p: Problem, a: seq<nat>, b: seq<nat>)
    requires InRange(p, a) && InRange(p, b)
    ensures RankLeq(p, StateOf(p, a), StateOf(p, b)) <==> !Better(p, b, a)
  {
    hide TupleLeq, TuplePrecedes, PathScore, Items, Minutes;
    LeqIsNotPreceded();
  }

  predicate UniqueIds(p: Problem) {
    forall i, j :: 0 <= i < j < |p.scored| ==> p.Item(i).opportunityId != p.Item(j).opportunityId
  }

  lemma IdTupleInjective(p: Problem, a: seq<nat>, b: seq<nat>)
    requires UniqueIds(p) && InRange(p, a) && InRange(p, b) && IdTuple(p, a) == IdTuple(p, b)
    ensures a == b
  {
    assert |IdTuple(p, a)| == |a| && |IdTuple(p, b)| == |b|;
    forall k | 0 <= k < |a| ensures a[k] == b[k] {
      assert IdTuple(p, a)[k] == IdTuple(p, b)[k];
      assert p.Item(a[k]).opportunityId == p.Item(b[k]).opportunityId;
    }
  }

  /** `a` stands before `b` at the first place where the tuples differ: there its
      identifier is a proper prefix, or has the smaller code point first. */
  lemma TupleOrderSpelledOut(a: seq<string>, b: seq<string>)
    requires |a| == |b|
    ensures TuplePrecedes(a, b) <==>
              exists k, c :: 0 <= k < |a| && a[..k] == b[..k] && 0 <= c <= |a[k]| && c < |b[k]|
                && a[k][..c] == b[k][..c] && (c == |a[k]| || a[k][c] < b[k][c])
  {
    if TuplePrecedes(a, b) {
      var k: nat :| FirstMemberBefore(a, b, k);
      var c: nat :| FirstDifference(a[k], b[k], c);
      assert a[..k] == b[..k] && a[k][..c] == b[k][..c];
    }
    if k, c :| (0 <= k < |a| && a[..k] == b[..k] && 0 <= c <= |a[k]| && c < |b[k]|
                && a[k][..c] == b[k][..c] && (c == |a[k]| || a[k][c] < b[k][c])) {
      assert FirstDifference(a[k], b[k], c);
      assert FirstMemberBefore(a, b, k);
    }
  }

  /** With distinct identifiers one of two different selections is the better one. */
  lemma OneIsBetter(p: Problem, a: seq<nat>, b: seq<nat>)
    requires UniqueIds(p) && InRange(p, a) && InRange(p, b) && a != b
    ensures Better(p, a, b) <==> RankLeq(p, StateOf(p, a), StateOf(p, b))
  {
    hide RankLeq, Better, UniqueIds, IdTuple;
    RankOrder(p);
    RankLeqIsNotBetter(p, a, b);
    RankLeqIsNotBetter(p, b, a);
    assert Rank(p)(StateOf(p, a), StateOf(p, b)) || Rank(p)(StateOf(p, b), StateOf(p, a));
    if RankLeq(p, StateOf(p, a), StateOf(p, b)) && RankLeq(p, StateOf(p, b), StateOf(p, a)) {
      IdTupleInjective(p, a, b);
    }
  }

  lemma OneOfTwoIsBetter(p: Problem, a: seq<nat>, b: seq<nat>)
    requires UniqueIds(p) && InRange(p, a) && InRange(p, b) && a != b
    ensures Better(p, a, b) <==> !Better(p, b, a)
  {
    hide RankLeq, Better, UniqueIds;
    OneIsBetter(p, a, b);
    RankLeqIsNotBetter(p, a, b);
  }

  lemma NotBetterThanItself(p: Problem, a: seq<nat>)
    requires InRange(p, a)
    ensures !Better(p, a, a)
  {
    hide PathScore, Items, Minutes, IdTuple;
    NoTuplePrecedesItself(IdTuple(p, a));
  }

  // ---- Choosing from the last beam ----

  function Flags(p: Problem, selected: seq<nat>): set<bool>
    requires InRange(p, selected)
  {
    set k | 0 <= k < |selected| :: p.Item(selected[k]).justificationRequired
  }

  function RemainingFlags(p: Problem, selected: seq<nat>): set<bool> {
    set i | 0 <= i < |p.scored| && i !in selected :: p.Item(i).justificationRequired
  }

  /** SELECTED needs a justification question, and, when reserves are permitted,
      a candidate outside the selection for every class inside it. */
  predicate MeetsSelectedRule(p: Problem, selected: seq<nat>)
    requires InRange(p, selected)
  {
    && true in Flags(p, selected)
    && (p.policy.maxReserve == 0 || Flags(p, selected) <= RemainingFlags(p, selected))
  }

  predicate MeetsMode(p: Problem, mode: JustificationMode, selected: seq<nat>)
    requires InRange(p, selected)
  {
    mode == Selected ==> MeetsSelectedRule(p, selected)
  }

  function FirstMeeting(p: Problem, mode: JustificationMode, states: seq<State>): Option<State>
    requires AllInRange(p, states)
  {
    if states == [] then None
    else if MeetsMode(p, mode, states[0].selected) then Some(states[0])
    else FirstMeeting(p, mode, states[1..])
  }

  /** The specification of `_select_exact`. */
  function Select(p: Problem, count: nat, mode: JustificationMode, width: nat): Option<State> {
    FirstMeeting(p, mode, Beam(p, width, count))
  }

  lemma NextOfEmpty(p: Problem, width: nat)
    ensures Next(p, width, []) == []
  {
    assert Expand(p, []) == [];
  }

  lemma {:induction false} BeamStaysEmpty(p: Problem, width: nat, depth: nat, later: nat)
    requires depth <= later && Beam(p, width, depth) == []
    ensures Beam(p, width, later) == []
  {
    hide Next;
    if depth < later {
      BeamStaysEmpty(p, width, depth, later - 1);
      NextOfEmpty(p, width);
      assert Beam(p, width, later) == Next(p, width, Beam(p, width, later - 1));
    }
  }

  /** The inner loop: append every admissible extension of one state. */
  method AppendChildren(p: Problem, s: State, next: seq<State>) returns (r: seq<State>, ghost work: nat)
    requires InRange(p, s.selected)
    ensures r == next + Children(p, s, Start(s))
    ensures work <= |p.scored|
  {
    r, work := next, 0;
    var index := Start(s);
    while index < |p.scored|
      invariant Start(s) <= index
      invariant r + Children(p, s, index) == next + Children(p, s, Start(s))
      invariant work <= if index <= |p.scored| then index else 0
    {
      work := work + 1;
      var candidate := p.Item(index);
      if s.minutes + candidate.targetMinutes <= p.budget
         && !(exists k :: 0 <= k < |s.selected| && Overlap(candidate, p.Item(s.selected[k])) > p.policy.maximumOverlap)
      {
        assert Admits(p, s, index);
        assert Children(p, s, index) == [Extend(p, s, index)] + Children(p, s, index + 1);
        r := r + [Extend(p, s, index)];
      } else {
        assert !Admits(p, s, index);
      }
      index := index + 1;
    }
    assert Children(p, s, index) == [];
  }

  /** The middle loop: every extension of every state of a beam. */
  method ExpandBeam(p: Problem, states: seq<State>) returns (next: seq<State>, ghost work: nat)
    requires AllInRange(p, states)
    ensures next == Expand(p, states)
    ensures work <= |states| * |p.scored|
  {
    hide Children, Expand;
    next, work := [], 0;
    assert states[0..] == states;
    for i := 0 to |states|
      invariant next + Expand(p, states[i..]) == Expand(p, states)
      invariant work <= i * |p.scored|
    {
      ExpandFrom(p, states, i);
      ghost var before := next;
      ghost var more: nat;
      next, more := AppendChildren(p, states[i], next);
      ConcatAssociates(before, Children(p, states[i], Start(states[i])), Expand(p, states[i+1..]));
      work := work + more;
    }
    ExpandNothing(p);
    assert states[|states|..] == [];
  }

  lemma ExpandFrom(p: Problem, states: seq<State>, i: nat)
    requires AllInRange(p, states) && i < |states|
    ensures Expand(p, states[i..]) == Children(p, states[i], Start(states[i])) + Expand(p, states[i+1..])
  {
    assert states[i..][0] == states[i] && states[i..][1..] == states[i+1..];
  }

  lemma ExpandNothing(p: Problem)
    ensures Expand(p, []) == []
  {
  }

  lemma ConcatAssociates<T>(a: seq<T>, b: seq<T>, c: seq<T>)
    ensures a + (b + c) == a + b + c
  {
  }

  /** The search as it is written: beams are rebuilt depth by depth, extensions
      are appended and then sorted and cut. `work` counts the candidates tried. */
  method SelectExact(p: Problem, count: nat, mode: JustificationMode, width: nat)
    returns (r: Option<State>, ghost work: nat)
    ensures r == Select(p, count, mode, width)
    ensures count >= 1 ==> work <= |p.scored| + (count - 1) * width * |p.scored|
  {
    hide Expand, RankLeq, Rank, SortBy, FirstMeeting;
    var states := [ROOT];
    work := 0;
    for depth := 0 to count
      invariant states == Beam(p, width, depth)
      invariant depth == 0 ==> work == 0
      invariant depth > 0 ==> |states| <= width && work <= |p.scored| + (depth - 1) * width * |p.scored|
    {
      ghost var more: nat;
      var next: seq<State>;
      next, more := ExpandBeam(p, states);
      if depth > 0 {
        WorkBound(|states|, width, |p.scored|, depth);
      }
      work := work + more;
      if next == [] {
        assert Beam(p, width, depth + 1) == [];
        BeamStaysEmpty(p, width, depth + 1, count);
        WorkGrows(depth, count, width, |p.scored|);
        NothingMeets(p, mode);
        return None, work;
      }
      states := Take(SortBy(Rank(p), next), width);
    }
    r := ChooseFrom(p, mode, states);
  }

  lemma NothingMeets(p: Problem, mode: JustificationMode)
    ensures FirstMeeting(p, mode, []) == None
  {
  }

  /** The closing loop over the last beam. */
  method ChooseFrom(p: Problem, mode: JustificationMode, states: seq<State>) returns (r: Option<State>)
    requires AllInRange(p, states)
    ensures r == FirstMeeting(p, mode, states)
  {
    if states == [] {
      return None;
    }
    if mode != Selected {
      return Some(states[0]);
    }
    for i := 0 to |states|
      invariant FirstMeeting(p, mode, states[i..]) == FirstMeeting(p, mode, states)
    {
      assert states[i..][0] == states[i] && states[i..][1..] == states[i+1..];
      var primaryFlags := Flags(p, states[i].selected);
      if true !in primaryFlags {
        continue;
      }
      var remainingFlags := RemainingFlags(p, states[i].selected);
      if p.policy.maxReserve == 0 || primaryFlags <= remainingFlags {
        return Some(states[i]);
      }
    }
    return None;
  }

  lemma WorkBound(beam: nat, width: nat, n: nat, depth: nat)
    requires beam <= width && depth >= 1
    ensures (depth - 1) * width * n + beam * n <= depth * width * n
  {
    assert beam * n <= width * n;
    assert depth * width * n == ((depth - 1) * width + width) * n == (depth - 1) * width * n + width * n;
  }

  lemma {:induction false} WorkGrows(depth: nat, count: nat, width: nat, n: nat)
    requires depth < count
    ensures depth * width * n <= (count - 1) * width * n
    decreases count
  {
    if depth < count - 1 {
      WorkGrows(depth, count - 1, width, n);
      WorkBound(0, width, n, count - 1);
    }
  }
}
