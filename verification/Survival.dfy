/** What the bounded search does when beams overflow: the selections it keeps are
    known exactly, and it returns the best acceptable one among them. */
module Survival {
  import opened Orders
  import opened Results
  import opened Contracts
  import opened Scoring
  import opened BeamSearch
  import opened SearchExactness
  import opened Planner
  import opened PlannerProperties

  // ---- Which members of a list a sorted cut keeps ----

  ghost function Ahead<T(!new)>(le: (T, T) -> bool, s: seq<T>, x: T): set<T> {
    set y | y in s && y != x && le(y, x)
  }

  /** Sorting and cutting keeps a member iff fewer than `width` others precede it. */
  lemma KeptIffFewAhead<T(!new)>(le: (T, T) -> bool, s: seq<T>, x: T, width: nat)
    requires Preorder(le) && Separates(le, s) && NoDup(s) && x in s
    ensures x in Take(SortBy(le, s), width) <==> |Ahead(le, s, x)| < width
  {
    var sorted := SortBy(le, s);
    SortBySorted(le, s);
    SameMembers(s, sorted);
    PermutationNoDup(s, sorted);
    var i :| 0 <= i < |sorted| && sorted[i] == x;
    hide Preorder, Sorted, Separates, NoDup, SortBy;
    AheadIsPrefix(le, s, sorted, i);
    ElemsSize(sorted[..i]);
    PrefixNoDup(sorted, i);
    TakenByPosition(sorted, i, width);
  }

  lemma PrefixNoDup<T>(s: seq<T>, i: nat)
    requires NoDup(s) && i <= |s|
    ensures NoDup(s[..i])
  {
  }

  lemma TakenByPosition<T>(s: seq<T>, i: nat, width: nat)
    requires NoDup(s) && i < |s|
    ensures s[i] in Take(s, width) <==> i < width
  {
    var taken := Take(s, width);
    if s[i] in taken {
      var k :| 0 <= k < |taken| && taken[k] == s[i];
      assert s[k] == s[i];
    }
    if i < width {
      assert taken[i] == s[i];
    }
  }

  /** What precedes a member in a sorted arrangement is what stands ahead of it. */
  lemma AheadIsPrefix<T(!new)>(le: (T, T) -> bool, s: seq<T>, sorted: seq<T>, i: nat)
    requires Sorted(le, sorted) && Separates(le, s) && NoDup(sorted) && i < |sorted|
    requires forall y :: y in s <==> y in sorted
    ensures Ahead(le, s, sorted[i]) == Elems(sorted[..i])
  {
    var x := sorted[i];
    forall y ensures y in Ahead(le, s, x) <==> y in sorted[..i] {
      if y in sorted {
        var j :| 0 <= j < |sorted| && sorted[j] == y;
        assert j < i ==> le(y, x) && sorted[..i][j] == y;
        assert j > i ==> le(x, y) && (le(y, x) ==> y == x);
      }
    }
  }

  // ---- Which selections stay, in terms of the constraints alone ----

  /** A better feasible selection of the same size whose own prefix stays. */
  ghost predicate Rival(p: Problem, width: nat, u: seq<nat>, t: seq<nat>)
    requires t != [] && InRange(p, t)
    decreases |t|, 0
  {
    FeasibleOfSize(p, u, |t|) && Better(p, u, t) && Stays(p, width, u[..|u|-1])
  }

  /** Every prefix of the selection has fewer than `width` rivals. No beam is
      mentioned: this is about the candidates, the constraints and the ranking. */
  ghost predicate Stays(p: Problem, width: nat, t: seq<nat>)
    requires InRange(p, t)
    decreases |t|, 1
  {
    t == []
    || (Stays(p, width, t[..|t|-1])
        && forall S: set<seq<nat>> :: (forall u :: u in S ==> Rival(p, width, u, t)) ==> |S| < width)
  }

  lemma RankSeparates(p: Problem, states: seq<State>, depth: nat)
    requires UniqueIds(p) && forall s :: s in states ==> Sound(p, s, depth)
    ensures Preorder(Rank(p)) && Separates(Rank(p), states)
  {
    hide RankLeq, StateOf, IdTuple;
    RankOrder(p);
    forall a, b | a in states && b in states && RankLeq(p, a, b) && RankLeq(p, b, a) ensures a == b {
      IdTupleInjective(p, a.selected, b.selected);
    }
  }

  /** A selection is an extension of a beam iff its prefix is in the beam. */
  lemma ExpandedIffPrefix(p: Problem, beam: seq<State>, t: seq<nat>)
    requires Feasible(p, t) && t != [] && forall s :: s in beam ==> Sound(p, s, |t| - 1)
    ensures AllInRange(p, beam) && Feasible(p, t[..|t|-1])
    ensures StateOf(p, t) in Expand(p, beam) <==> StateOf(p, t[..|t|-1]) in beam
  {
    hide Admits, PathScore, Minutes, Compatible, Expand;
    var init, last := t[..|t|-1], t[|t|-1];
    assert t == init + [last];
    FeasiblePrefix(p, t);
    ExpandMembers(p, beam);
    ExtendIsStateOf(p, init, last);
    AdmitsIsFeasible(p, init, last);
    if StateOf(p, t) in Expand(p, beam) {
      var s, i :| s in beam && Start(s) <= i < |p.scored| && Admits(p, s, i) && StateOf(p, t) == Extend(p, s, i);
      assert (s.selected + [i])[..|t|-1] == s.selected;
    }
  }

  /** The states ahead of the state of `t` when the beam is cut. */
  ghost function AheadOf(p: Problem, width: nat, t: seq<nat>): set<State>
    requires InRange(p, t) && t != []
  {
    Ahead(Rank(p), Expand(p, Beam(p, width, |t| - 1)), StateOf(p, t))
  }

  lemma CutExactly(p: Problem, width: nat, t: seq<nat>)
    requires UniqueIds(p) && Feasible(p, t) && t != []
    ensures Feasible(p, t[..|t|-1])
    ensures StateOf(p, t) in Beam(p, width, |t|) <==>
              StateOf(p, t[..|t|-1]) in Beam(p, width, |t| - 1) && |AheadOf(p, width, t)| < width
  {
    hide Minutes, Compatible, Increasing, StateOf, Expand, Ahead;
    var beam, x := Beam(p, width, |t| - 1), StateOf(p, t);
    var all := Expand(p, beam);
    BeamSound(p, width, |t| - 1);
    BeamDistinguished(p, width, |t| - 1);
    ExpandedIffPrefix(p, beam, t);
    ExpandSound(p, beam, |t| - 1);
    ExpandDistinguished(p, beam, |t| - 1);
    DistinguishedMeansNoDup(all);
    RankSeparates(p, all, |t|);
    SameMembers(all, Frontier(p, beam));
    if x in all {
      KeptIffFewAhead(Rank(p), all, x, width);
    }
  }

  ghost function SelectionsOf(states: set<State>): set<seq<nat>> {
    set s | s in states :: s.selected
  }

  lemma {:induction false} SelectionsCount(states: set<State>)
    requires forall a, b :: a in states && b in states && a.selected == b.selected ==> a == b
    ensures |SelectionsOf(states)| == |states|
  {
    if states != {} {
      var x :| x in states;
      SelectionsCount(states - {x});
      assert SelectionsOf(states) == SelectionsOf(states - {x}) + {x.selected};
    }
  }

  /** Once prefixes stay exactly when they are in the beam, the rivals are the
      selections of the states ahead. */
  lemma RivalsAreAhead(p: Problem, width: nat, t: seq<nat>)
    requires UniqueIds(p) && Feasible(p, t) && t != []
    requires forall v :: FeasibleOfSize(p, v, |t| - 1) ==>
               (StateOf(p, v) in Beam(p, width, |t| - 1) <==> Stays(p, width, v))
    ensures forall u :: Rival(p, width, u, t) <==> u in SelectionsOf(AheadOf(p, width, t))
    ensures |SelectionsOf(AheadOf(p, width, t))| == |AheadOf(p, width, t)|
  {
    hide Minutes, Compatible, Increasing, Expand, RankLeq, Better, PathScore, Items, Stays, UniqueIds;
    var beam := Beam(p, width, |t| - 1);
    var ahead := AheadOf(p, width, t);
    BeamSound(p, width, |t| - 1);
    ExpandSound(p, beam, |t| - 1);
    SelectionsCount(ahead);
    forall u ensures Rival(p, width, u, t) <==> u in SelectionsOf(ahead) {
      if FeasibleOfSize(p, u, |t|) {
        ExpandedIffPrefix(p, beam, u);
        if u == t {
          NotBetterThanItself(p, t);
        } else {
          OneIsBetter(p, u, t);
        }
        SelectionOfState(p, u);
        SelectionOfState(p, t);
        assert u in SelectionsOf(ahead) <==> StateOf(p, u) in ahead;
      }
    }
  }

  lemma EmptySelection(p: Problem, width: nat)
    ensures InRange(p, []) && StateOf(p, []) in Beam(p, width, 0)
  {
    assert Items(p, []) == [];
  }

  lemma CountBelow(p: Problem, width: nat, t: seq<nat>, R: set<seq<nat>>)
    requires InRange(p, t) && t != [] && forall u :: Rival(p, width, u, t) <==> u in R
    ensures (forall S: set<seq<nat>> :: (forall u :: u in S ==> Rival(p, width, u, t)) ==> |S| < width) <==> |R| < width
  {
    hide Rival;
    forall S: set<seq<nat>> | forall u :: u in S ==> Rival(p, width, u, t) ensures |S| <= |R| {
      assert S <= R;
      SubsetSize(S, R);
    }
  }

  /** With or without overflow the beams hold exactly the feasible selections
      that stay. */
  lemma {:induction false} BeamHoldsStaying(p: Problem, width: nat, t: seq<nat>)
    requires UniqueIds(p) && Feasible(p, t)
    ensures StateOf(p, t) in Beam(p, width, |t|) <==> Stays(p, width, t)
    decreases |t|
  {
    hide Minutes, Compatible, Increasing, Beam, AheadOf, Rival, UniqueIds, StateOf;
    if t == [] {
      EmptySelection(p, width);
    } else {
      CutExactly(p, width, t);
      forall v | FeasibleOfSize(p, v, |t| - 1)
        ensures StateOf(p, v) in Beam(p, width, |t| - 1) <==> Stays(p, width, v)
      {
        BeamHoldsStaying(p, width, v);
      }
      RivalsAreAhead(p, width, t);
      CountBelow(p, width, t, SelectionsOf(AheadOf(p, width, t)));
    }
  }

  /** Where no depth can overflow every feasible selection stays. */
  lemma {:induction false} EveryoneStaysWithoutOverflow(p: Problem, width: nat, t: seq<nat>)
    requires Feasible(p, t) && forall k :: 1 <= k <= |t| ==> AtMost(p, k, width)
    ensures Stays(p, width, t)
    decreases |t|
  {
    hide Minutes, Compatible, Increasing, Rival, AtMost;
    if t != [] {
      FeasiblePrefix(p, t);
      EveryoneStaysWithoutOverflow(p, width, t[..|t|-1]);
      forall S: set<seq<nat>> | forall u :: u in S ==> Rival(p, width, u, t) ensures |S| < width {
        FewRivals(p, width, t, S);
      }
    }
  }

  lemma FewRivals(p: Problem, width: nat, t: seq<nat>, S: set<seq<nat>>)
    requires Feasible(p, t) && t != [] && AtMost(p, |t|, width)
    requires forall u :: u in S ==> Rival(p, width, u, t)
    ensures |S| < width
  {
    hide Better, Stays;
    NotBetterThanItself(p, t);
    var all := S + {t};
    assert forall u :: u in all ==> FeasibleOfSize(p, u, |t|);
    assert t !in S && |all| == |S| + 1;
  }

  // ---- The search and the planner, with or without overflow ----

  lemma BeamSorted(p: Problem, width: nat, depth: nat)
    ensures Preorder(Rank(p)) && Sorted(Rank(p), Beam(p, width, depth))
  {
    hide RankLeq, Expand;
    RankOrder(p);
    if depth > 0 {
      SortBySorted(Rank(p), Expand(p, Beam(p, width, depth - 1)));
    }
  }

  /** The search returns something exactly when an acceptable selection stays, and
      then one than which no staying one is better. */
  lemma SearchFindsBestStaying(p: Problem, count: nat, mode: JustificationMode, width: nat)
    requires UniqueIds(p)
    ensures Select(p, count, mode, width).Some? <==> exists t :: Acceptable(p, count, mode, t) && Stays(p, width, t)
    ensures var r := Select(p, count, mode, width);
            r.Some? ==>
              Sound(p, r.value, count) && Acceptable(p, count, mode, r.value.selected) && Stays(p, width, r.value.selected)
              && forall t :: Acceptable(p, count, mode, t) && Stays(p, width, t) ==> !Better(p, t, r.value.selected)
  {
    hide Minutes, Compatible, Increasing, Beam, MeetsMode, RankLeq, Better, Stays, StateOf;
    var beam := Beam(p, width, count);
    BeamSound(p, width, count);
    BeamSorted(p, width, count);
    FirstMeetingSpec(p, mode, beam);
    var r := Select(p, count, mode, width);
    forall t | Acceptable(p, count, mode, t) && Stays(p, width, t)
      ensures r.Some? && !Better(p, t, r.value.selected)
    {
      BeamHoldsStaying(p, width, t);
      SelectionOfState(p, t);
      RankLeqIsNotBetter(p, r.value.selected, t);
    }
    if r.Some? {
      BeamHoldsStaying(p, width, r.value.selected);
    }
  }

  /** The answer of the search told without its sort key: against every acceptable
      selection that stays, the one returned has the higher score; or the same score
      and fewer minutes; or both the same and, at the first place where the
      identifiers differ, the one that ends first or has the smaller code point. */
  lemma ReturnedComesFirst(p: Problem, count: nat, mode: JustificationMode, width: nat, t: seq<nat>)
    requires UniqueIds(p) && Select(p, count, mode, width).Some?
    requires Acceptable(p, count, mode, t) && Stays(p, width, t)
    ensures var r := Select(p, count, mode, width).value;
            InRange(p, r.selected) && |r.selected| == count
            && r.score >= PathScore(Items(p, t), p.policy)
            && (r.score == PathScore(Items(p, t), p.policy) ==> r.minutes <= Minutes(p, t))
            && (r.score == PathScore(Items(p, t), p.policy) && r.minutes == Minutes(p, t) && r.selected != t ==>
                  var a, b := IdTuple(p, r.selected), IdTuple(p, t);
                  exists k, c :: 0 <= k < count && a[..k] == b[..k] && 0 <= c <= |a[k]| && c < |b[k]|
                    && a[k][..c] == b[k][..c] && (c == |a[k]| || a[k][c] < b[k][c]))
  {
    hide Minutes, Compatible, Increasing, MeetsMode, Stays, Select, UniqueIds, PathScore, Items, TuplePrecedes;
    SearchFindsBestStaying(p, count, mode, width);
    var r := Select(p, count, mode, width).value;
    if r.selected != t {
      OneOfTwoIsBetter(p, t, r.selected);
      TupleOrderSpelledOut(IdTuple(p, r.selected), IdTuple(p, t));
    }
  }

  lemma SelectionOfState(p: Problem, t: seq<nat>)
    requires InRange(p, t)
    ensures StateOf(p, t).selected == t
  {
  }

  /** The best acceptable state is what the search returns exactly when it stays. */
  lemma BestIsFoundIffItStays(p: Problem, count: nat, mode: JustificationMode, width: nat, best: State)
    requires UniqueIds(p) && Best(p, count, mode, best)
    ensures Select(p, count, mode, width) == Some(best) <==> Stays(p, width, best.selected)
  {
    hide Minutes, Compatible, Increasing, MeetsMode, Better, Stays, StateOf, Select, UniqueIds;
    SearchFindsBestStaying(p, count, mode, width);
    var r := Select(p, count, mode, width);
    assert Acceptable(p, count, mode, best.selected);
    if Stays(p, width, best.selected) {
      if best.selected != r.value.selected {
        OneOfTwoIsBetter(p, best.selected, r.value.selected);
      }
    }
  }

  /** There is a best acceptable selection as soon as there is an acceptable one. */
  lemma SomeBest(p: Problem, count: nat, mode: JustificationMode, t: seq<nat>) returns (best: State)
    requires count >= 1 && Acceptable(p, count, mode, t)
    ensures Best(p, count, mode, best)
  {
    hide Best, Acceptable, AtMost, Choose;
    var n := |p.scored|;
    Power2Grows(n, n);
    forall k | 1 <= k <= count ensures AtMost(p, k, Power2(n)) {
      NeighboursBound(n, k);
      AtMostChoose(p, k, Power2(n));
    }
    ExactWithoutOverflow(p, count, mode, Power2(n));
    best := Select(p, count, mode, Power2(n)).value;
  }

  /** When the planner answers READY, for every valid input: exactly when some
      acceptable selection stays. The answer INFEASIBLE is wrong exactly when there
      are acceptable selections and none of them stays. */
  lemma ReadyIffSomeStay(mapping: Mapping, blueprint: Blueprint, policy: PlanningPolicy)
    requires MappingModel(mapping) && blueprint.constraints.questionCount >= 1
    ensures var plan, p := PlanCandidates(mapping, blueprint, policy), PlanningProblem(mapping, blueprint, policy);
            var n, mode := blueprint.constraints.questionCount, blueprint.constraints.mode;
            plan.status == Ready <==> exists t :: Acceptable(p, n, mode, t) && Stays(p, BEAM_WIDTH, t)
  {
    hide ValidCandidates, SortedSet, OpportunityEvidence, Reserve, MinutesOf, MeetsMode, Stays, Select, Minutes, Compatible, Increasing, IsCandidate;
    var n, mode := blueprint.constraints.questionCount, blueprint.constraints.mode;
    var p := PlanningProblem(mapping, blueprint, policy);
    CandidateFacts(mapping, blueprint, policy);
    SearchFindsBestStaying(p, n, mode, BEAM_WIDTH);
    FeasibleNeedsCandidates(p, n);
  }

  /** When a plan is the best one overall: exactly when the best acceptable
      selection stays. */
  lemma PlanIsBestIffItStays(mapping: Mapping, blueprint: Blueprint, policy: PlanningPolicy, best: State)
    requires MappingModel(mapping) && blueprint.constraints.questionCount >= 1
    requires Best(PlanningProblem(mapping, blueprint, policy), blueprint.constraints.questionCount, blueprint.constraints.mode, best)
    ensures var plan, p := PlanCandidates(mapping, blueprint, policy), PlanningProblem(mapping, blueprint, policy);
            plan.status == Ready && plan.selectedIds == IdTuple(p, best.selected) <==> Stays(p, BEAM_WIDTH, best.selected)
  {
    hide ValidCandidates, SortedSet, OpportunityEvidence, Reserve, MinutesOf, MeetsMode, Stays, Select, Minutes, Compatible,
         Increasing, IsCandidate, Better, StateOf;
    var n, mode := blueprint.constraints.questionCount, blueprint.constraints.mode;
    var p := PlanningProblem(mapping, blueprint, policy);
    var plan, found := PlanCandidates(mapping, blueprint, policy), Select(p, n, mode, BEAM_WIDTH);
    CandidateFacts(mapping, blueprint, policy);
    BestIsFoundIffItStays(p, n, mode, BEAM_WIDTH, best);
    FeasibleNeedsCandidates(p, n);
    if plan.status == Ready && plan.selectedIds == IdTuple(p, best.selected) {
      SelectIsSound(p, n, mode, BEAM_WIDTH);
      IdTupleInjective(p, found.value.selected, best.selected);
    }
  }
}
