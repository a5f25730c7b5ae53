/** When the bounded search is a complete and optimal search, and what happens
    when it is not. */
module SearchExactness {
  import opened Orders
  import opened Results
  import opened Contracts
  import opened Scoring
  import opened BeamSearch

  /** There are no more than `width` feasible selections of `k` candidates. */
  ghost predicate AtMost(p: Problem, k: nat, width: nat) {
    forall S: set<seq<nat>> :: (forall s :: s in S ==> FeasibleOfSize(p, s, k)) ==> |S| <= width
  }

  /** `s` is acceptable, and no acceptable selection of its size is better. */
  ghost predicate Best(p: Problem, count: nat, mode: JustificationMode, s: State) {
    && Sound(p, s, count)
    && MeetsMode(p, mode, s.selected)
    && forall t :: FeasibleOfSize(p, t, count) && MeetsMode(p, mode, t) ==> !Better(p, t, s.selected)
  }

  ghost predicate Acceptable(p: Problem, count: nat, mode: JustificationMode, t: seq<nat>) {
    FeasibleOfSize(p, t, count) && MeetsMode(p, mode, t)
  }

  /** The minutes of a selection, candidate by candidate from the front. */
  function TotalMinutes(p: Problem, t: seq<nat>): nat
    requires InRange(p, t)
  {
    if t == [] then 0 else p.Item(t[0]).targetMinutes + TotalMinutes(p, t[1..])
  }

  lemma {:induction false} MinutesFromTheFront(p: Problem, t: seq<nat>)
    requires InRange(p, t)
    ensures Minutes(p, t) == TotalMinutes(p, t)
  {
    if |t| > 1 {
      var last := |t| - 1;
      MinutesFromTheFront(p, t[..last]);
      MinutesFromTheFront(p, t[1..]);
      MinutesFromTheFront(p, t[1..][..last-1]);
      assert t[1..][..last-1] == t[..last][1..] && t[1..][last-1] == t[last];
    } else if |t| == 1 {
      assert t[..0] == [] && t[1..] == [];
    }
  }

  /** Which selections the search may return, in plain terms: so many different
      candidates in index order, within the minutes, pairwise under the overlap cap; and
      under SELECTED one that asks for justification and, where reserves are permitted,
      a candidate outside for every justification class inside. */
  lemma AcceptableMeans(p: Problem, count: nat, mode: JustificationMode, t: seq<nat>)
    ensures Acceptable(p, count, mode, t) <==>
              && |t| == count && (forall k :: 0 <= k < |t| ==> t[k] < |p.scored|)
              && (forall i, j :: 0 <= i < j < |t| ==> t[i] < t[j])
              && TotalMinutes(p, t) <= p.budget
              && (forall i, j :: 0 <= i < j < |t| ==> Overlap(p.Item(t[i]), p.Item(t[j])) <= p.policy.maximumOverlap)
              && (mode == Selected ==>
                    (exists k :: 0 <= k < |t| && p.Item(t[k]).justificationRequired)
                    && (p.policy.maxReserve > 0 ==>
                          forall k :: 0 <= k < |t| ==>
                            exists i :: 0 <= i < |p.scored| && i !in t && p.Item(i).justificationRequired == p.Item(t[k]).justificationRequired))
  {
    hide Minutes, TotalMinutes, Overlap;
    if InRange(p, t) {
      MinutesFromTheFront(p, t);
      SelectedRuleMeans(p, t);
    }
  }

  lemma SelectedRuleMeans(p: Problem, t: seq<nat>)
    requires InRange(p, t)
    ensures MeetsSelectedRule(p, t) <==>
              (exists k :: 0 <= k < |t| && p.Item(t[k]).justificationRequired)
              && (p.policy.maxReserve > 0 ==>
                    forall k :: 0 <= k < |t| ==>
                      exists i :: 0 <= i < |p.scored| && i !in t && p.Item(i).justificationRequired == p.Item(t[k]).justificationRequired)
  {
    var inside, outside := Flags(p, t), RemainingFlags(p, t);
    assert forall k :: 0 <= k < |t| ==> p.Item(t[k]).justificationRequired in inside;
    assert inside <= outside <==> forall k :: 0 <= k < |t| ==> p.Item(t[k]).justificationRequired in outside;
  }

  // ---- No truncation: every feasible selection reaches the beam ----

  lemma FrontierFits(p: Problem, beam: seq<State>, depth: nat, width: nat)
    requires Distinguished(beam) && (forall s :: s in beam ==> Sound(p, s, depth))
    requires AtMost(p, depth + 1, width)
    ensures AllInRange(p, beam) && |Frontier(p, beam)| <= width
  {
    NextSound(p, width, beam, depth);
    NextDistinguished(p, width, beam, depth);
    var frontier := Frontier(p, beam);
    var all := Selections(frontier);
    ElemsSize(all);
    forall s | s in Elems(all) ensures FeasibleOfSize(p, s, depth + 1) {
      var i :| 0 <= i < |all| && all[i] == s;
      assert frontier[i] in frontier;
    }
  }

  /** A beam that holds every feasible selection expands to every longer one. */
  lemma FrontierComplete(p: Problem, beam: seq<State>, depth: nat)
    requires forall s :: s in beam ==> Sound(p, s, depth)
    requires forall t :: FeasibleOfSize(p, t, depth) ==> StateOf(p, t) in beam
    ensures AllInRange(p, beam)
    ensures forall t :: FeasibleOfSize(p, t, depth + 1) ==> StateOf(p, t) in Frontier(p, beam)
  {
    hide StateOf, Minutes, Compatible, Increasing, Admits, Extend, Expand;
    ExpandMembers(p, beam);
    SameMembers(Expand(p, beam), Frontier(p, beam));
    forall t | FeasibleOfSize(p, t, depth + 1) ensures StateOf(p, t) in Frontier(p, beam) {
      var init, i := t[..depth], t[depth];
      assert t == init + [i];
      FeasiblePrefix(p, t);
      AdmitsIsFeasible(p, init, i);
      ExtendIsStateOf(p, init, i);
      assert StateOf(p, init) in beam;
      assert Extends(p, beam, StateOf(p, t));
    }
  }

  /** `beam` holds exactly the feasible selections of one size, once each. */
  ghost predicate Exhaustive(p: Problem, beam: seq<State>, depth: nat) {
    && Distinguished(beam)
    && (forall s :: s in beam ==> Sound(p, s, depth))
    && forall t :: FeasibleOfSize(p, t, depth) ==> StateOf(p, t) in beam
  }

  lemma NextExhaustive(p: Problem, beam: seq<State>, depth: nat, width: nat)
    requires Exhaustive(p, beam, depth)
    ensures AllInRange(p, beam)
    ensures forall t :: FeasibleOfSize(p, t, depth + 1) ==> StateOf(p, t) in Frontier(p, beam)
    ensures AtMost(p, depth + 1, width) ==> Exhaustive(p, Next(p, width, beam), depth + 1)
  {
    hide StateOf, FeasibleOfSize, Frontier, AtMost;
    NextSound(p, width, beam, depth);
    NextDistinguished(p, width, beam, depth);
    FrontierComplete(p, beam, depth);
    if AtMost(p, depth + 1, width) {
      FrontierFits(p, beam, depth, width);
    }
  }

  lemma {:induction false} BeamExhaustive(p: Problem, width: nat, depth: nat)
    requires forall k :: 1 <= k <= depth ==> AtMost(p, k, width)
    ensures Exhaustive(p, Beam(p, width, depth), depth)
  {
    hide Next, AtMost;
    if depth > 0 {
      hide Exhaustive;
      BeamExhaustive(p, width, depth - 1);
      NextExhaustive(p, Beam(p, width, depth - 1), depth - 1, width);
    }
  }

  // ---- The choice from a ranked list ----

  lemma {:induction false} FirstMeetingSpec(p: Problem, mode: JustificationMode, states: seq<State>)
    requires AllInRange(p, states)
    ensures FirstMeeting(p, mode, states) == None <==> forall s :: s in states ==> !MeetsMode(p, mode, s.selected)
    ensures var r := FirstMeeting(p, mode, states);
            r.Some? ==> r.value in states && MeetsMode(p, mode, r.value.selected)
    ensures var r := FirstMeeting(p, mode, states);
            r.Some? && Preorder(Rank(p)) && Sorted(Rank(p), states) ==>
              forall s :: s in states && MeetsMode(p, mode, s.selected) ==> RankLeq(p, r.value, s)
  {
    if states != [] && !MeetsMode(p, mode, states[0].selected) {
      FirstMeetingSpec(p, mode, states[1..]);
      assert forall s :: s in states <==> s == states[0] || s in states[1..];
    } else if states != [] && Preorder(Rank(p)) && Sorted(Rank(p), states) {
      assert Rank(p)(states[0], states[0]);
      forall s | s in states ensures RankLeq(p, states[0], s) {
        var i :| 0 <= i < |states| && states[i] == s;
        assert Rank(p)(states[0], states[i]);
      }
    }
  }

  lemma {:induction false} FirstMeetingPrefix(p: Problem, mode: JustificationMode, states: seq<State>, n: nat)
    requires AllInRange(p, states) && n <= |states|
    requires FirstMeeting(p, mode, states[..n]).Some?
    ensures FirstMeeting(p, mode, states) == FirstMeeting(p, mode, states[..n])
  {
    if !MeetsMode(p, mode, states[0].selected) {
      assert states[1..][..n-1] == states[..n][1..];
      FirstMeetingPrefix(p, mode, states[1..], n - 1);
    }
  }

  // ---- Main results ----

  /** Whatever the beam width, a returned selection meets every constraint. */
  lemma SelectIsSound(p: Problem, count: nat, mode: JustificationMode, width: nat)
    ensures var r := Select(p, count, mode, width);
            r.Some? ==> Sound(p, r.value, count) && MeetsMode(p, mode, r.value.selected)
  {
    BeamSound(p, width, count);
    FirstMeetingSpec(p, mode, Beam(p, width, count));
  }

  lemma ChoiceIsBest(p: Problem, beam: seq<State>, depth: nat, mode: JustificationMode, width: nat)
    requires Exhaustive(p, beam, depth)
    ensures AllInRange(p, beam)
    ensures var r := FirstMeeting(p, mode, Next(p, width, beam));
            r.Some? ==> Best(p, depth + 1, mode, r.value)
  {
    hide PathScore, Items, MeetsSelectedRule, RankLeq, Better, Minutes, Compatible, Increasing, Expand;
    NextSound(p, width, beam, depth);
    var frontier := Frontier(p, beam);
    NextExhaustive(p, beam, depth, width);
    RankOrder(p);
    SortBySorted(Rank(p), Expand(p, beam));
    FirstMeetingSpec(p, mode, frontier);
    var r := FirstMeeting(p, mode, Next(p, width, beam));
    if r.Some? {
      if |frontier| > width {
        FirstMeetingPrefix(p, mode, frontier, width);
      }
      assert r == FirstMeeting(p, mode, frontier);
      forall t | FeasibleOfSize(p, t, depth + 1) && MeetsMode(p, mode, t)
        ensures !Better(p, t, r.value.selected)
      {
        assert StateOf(p, t) in frontier && StateOf(p, t).selected == t;
        RankLeqIsNotBetter(p, r.value.selected, t);
      }
    }
  }

  /** If no beam before the last can overflow, whatever the search returns is
      first in the ranking among all acceptable selections. */
  lemma ReturnedIsBest(p: Problem, count: nat, mode: JustificationMode, width: nat)
    requires count >= 1 && (forall k :: 1 <= k < count ==> AtMost(p, k, width))
    ensures var r := Select(p, count, mode, width);
            r.Some? ==> Best(p, count, mode, r.value)
  {
    hide Next, AtMost, Exhaustive, Best;
    BeamExhaustive(p, width, count - 1);
    ChoiceIsBest(p, Beam(p, width, count - 1), count - 1, mode, width);
  }

  lemma EmptyNextMeansNone(p: Problem, beam: seq<State>, depth: nat, width: nat)
    requires Exhaustive(p, beam, depth) && width >= 1
    ensures AllInRange(p, beam)
    ensures Next(p, width, beam) == [] ==> forall t :: Feasible(p, t) ==> |t| != depth + 1
  {
    hide StateOf, Minutes, Compatible, Increasing;
    NextExhaustive(p, beam, depth, width);
    if t: seq<nat> :| Feasible(p, t) && |t| == depth + 1 {
      assert FeasibleOfSize(p, t, depth + 1);
      assert StateOf(p, t) in Frontier(p, beam);
      assert |Next(p, width, beam)| >= 1;
    }
  }

  /** Exactness outside SELECTED: nothing is returned iff nothing is feasible. */
  lemma CompleteUnlessSelected(p: Problem, count: nat, mode: JustificationMode, width: nat)
    requires count >= 1 && width >= 1 && mode != Selected
    requires forall k :: 1 <= k < count ==> AtMost(p, k, width)
    ensures Select(p, count, mode, width).None? <==> forall t :: !Acceptable(p, count, mode, t)
  {
    hide Next, AtMost, Exhaustive, Feasible;
    BeamExhaustive(p, width, count - 1);
    EmptyNextMeansNone(p, Beam(p, width, count - 1), count - 1, width);
    SelectIsSound(p, count, mode, width);
    var r := Select(p, count, mode, width);
    if r.Some? {
      assert Acceptable(p, count, mode, r.value.selected);
    }
  }

  /** Exactness under SELECTED also needs the last beam to hold everything. */
  lemma CompleteUnderSelected(p: Problem, count: nat, width: nat)
    requires forall k :: 1 <= k <= count ==> AtMost(p, k, width)
    ensures Select(p, count, Selected, width).None? <==> forall t :: !Acceptable(p, count, Selected, t)
  {
    hide Beam, AtMost, MeetsSelectedRule, Minutes, Compatible, Increasing, PathScore;
    BeamExhaustive(p, width, count);
    FirstMeetingSpec(p, Selected, Beam(p, width, count));
    SelectIsSound(p, count, Selected, width);
    var r := Select(p, count, Selected, width);
    if r.Some? {
      assert Acceptable(p, count, Selected, r.value.selected);
    }
  }

  /** The best selection is unique when opportunity identifiers are. */
  lemma BestIsUnique(p: Problem, count: nat, mode: JustificationMode, a: State, b: State)
    requires UniqueIds(p) && Best(p, count, mode, a) && Best(p, count, mode, b)
    ensures a == b
  {
    hide Better, StateOf;
    assert !Better(p, a.selected, b.selected) && !Better(p, b.selected, a.selected);
    if a.selected != b.selected {
      OneOfTwoIsBetter(p, a.selected, b.selected);
    }
  }

  /** A selection that exists but is not found was crowded out: at some depth
      there were more feasible selections than the beam keeps. */
  lemma MissedMeansOverflow(p: Problem, count: nat, mode: JustificationMode, width: nat, t: seq<nat>)
    requires count >= 1 && width >= 1
    requires Acceptable(p, count, mode, t) && Select(p, count, mode, width).None?
    ensures exists k :: 1 <= k <= count && !AtMost(p, k, width)
    ensures mode != Selected ==> exists k :: 1 <= k < count && !AtMost(p, k, width)
  {
    if mode != Selected && forall k :: 1 <= k < count ==> AtMost(p, k, width) {
      CompleteUnlessSelected(p, count, mode, width);
    }
    if mode == Selected && forall k :: 1 <= k <= count ==> AtMost(p, k, width) {
      CompleteUnderSelected(p, count, width);
    }
  }

  // ---- A bound on the candidates that rules truncation out ----

  function Choose(n: nat, k: nat): nat {
    if k == 0 then 1 else if n == 0 then 0 else Choose(n - 1, k) + Choose(n - 1, k - 1)
  }

  ghost predicate Subset(s: seq<nat>, n: nat, k: nat) {
    |s| == k && Increasing(s) && forall i :: 0 <= i < k ==> s[i] < n
  }

  ghost function Prefixes(S: set<seq<nat>>, k: nat): set<seq<nat>>
    requires forall s :: s in S ==> |s| >= k
  {
    set s | s in S :: s[..k]
  }

  lemma {:induction false} PrefixesSize(S: set<seq<nat>>, k: nat, last: nat)
    requires forall s :: s in S ==> |s| == k + 1 && s[k] == last
    ensures |S| == |Prefixes(S, k)|
  {
    if S != {} {
      var x :| x in S;
      PrefixesSize(S - {x}, k, last);
      assert Prefixes(S, k) == Prefixes(S - {x}, k) + {x[..k]};
      forall s | s in S - {x} ensures s[..k] != x[..k] {
        assert s == s[..k] + [last] && x == x[..k] + [last];
      }
    }
  }

  lemma NothingFromNothing(s: seq<nat>, k: nat)
    requires k > 0
    ensures !Subset(s, 0, k)
  {
    assert |s| == k ==> s[0] >= 0;
  }

  lemma {:induction false} SubsetsCount(S: set<seq<nat>>, n: nat, k: nat)
    requires forall s :: s in S ==> Subset(s, n, k)
    ensures |S| <= Choose(n, k)
    decreases n
  {
    if k == 0 {
      assert S <= {[]};
      SubsetSize(S, {[]});
    } else if n == 0 {
      forall s ensures s !in S {
        NothingFromNothing(s, k);
      }
      assert S == {};
    } else {
      var with := set s | s in S && s[k-1] == n - 1;
      var without := S - with;
      forall s | s in without ensures Subset(s, n - 1, k) {
        forall i | 0 <= i < k ensures s[i] < n - 1 {
          assert s[i] <= s[k-1];
        }
      }
      SubsetsCount(without, n - 1, k);
      var image := Prefixes(with, k - 1);
      forall t | t in image ensures Subset(t, n - 1, k - 1) {
        var s :| s in with && t == s[..k-1];
        assert forall i :: 0 <= i < k - 1 ==> s[i] < s[k-1];
      }
      SubsetsCount(image, n - 1, k - 1);
      PrefixesSize(with, k - 1, n - 1);
      assert S == with + without && with !! without;
    }
  }

  /** With n candidates no beam of at least C(n, k) states overflows at depth k. */
  lemma AtMostChoose(p: Problem, k: nat, width: nat)
    requires Choose(|p.scored|, k) <= width
    ensures AtMost(p, k, width)
  {
    forall S: set<seq<nat>> | forall s :: s in S ==> FeasibleOfSize(p, s, k) ensures |S| <= width {
      forall s | s in S ensures Subset(s, |p.scored|, k) {
        assert FeasibleOfSize(p, s, k);
      }
      SubsetsCount(S, |p.scored|, k);
    }
  }

  function Power2(n: nat): nat { if n == 0 then 1 else 2 * Power2(n - 1) }

  lemma {:induction false} NeighboursBound(n: nat, k: nat)
    ensures Choose(n, k) + (if k == 0 then 0 else Choose(n, k - 1)) <= Power2(n)
  {
    if n > 0 {
      NeighboursBound(n - 1, k);
      if k > 0 {
        NeighboursBound(n - 1, k - 1);
      }
    }
  }

  lemma {:induction false} Power2Grows(n: nat, m: nat)
    requires n <= m
    ensures 1 <= Power2(n) <= Power2(m)
  {
    if n < m {
      Power2Grows(n, m - 1);
    } else if n > 0 {
      Power2Grows(n - 1, n - 1);
    }
  }

  lemma ChooseUpToTen(n: nat, k: nat)
    requires n <= 10
    ensures Choose(n, k) <= BEAM_WIDTH
  {
    assert Power2(9) == 512;
    if n > 0 && k > 0 {
      NeighboursBound(n - 1, k);
      Power2Grows(n - 1, 9);
    }
  }

  /** No beam that matters can overflow: the last one matters only under SELECTED,
      where the choice looks beyond its first state. */
  ghost predicate NeverOverflows(p: Problem, count: nat, mode: JustificationMode, width: nat) {
    && (forall k :: 1 <= k < count ==> AtMost(p, k, width))
    && (mode == Selected ==> AtMost(p, count, width))
  }

  /** A search that cannot overflow is complete and optimal. */
  lemma ExactWithoutOverflow(p: Problem, count: nat, mode: JustificationMode, width: nat)
    requires count >= 1 && width >= 1 && NeverOverflows(p, count, mode, width)
    ensures var r := Select(p, count, mode, width);
            (r.None? <==> forall t :: !Acceptable(p, count, mode, t)) && (r.Some? ==> Best(p, count, mode, r.value))
  {
    hide AtMost, Best;
    ReturnedIsBest(p, count, mode, width);
    if mode == Selected {
      CompleteUnderSelected(p, count, width);
    } else {
      CompleteUnlessSelected(p, count, mode, width);
    }
  }

  /** With at most ten candidates no beam of the shipped width overflows, for any
      question count, budget, overlap cap and mode. */
  lemma TenNeverOverflow(p: Problem, count: nat, mode: JustificationMode)
    requires |p.scored| <= 10 && count >= 1
    ensures NeverOverflows(p, count, mode, BEAM_WIDTH)
  {
    forall k | 1 <= k <= count ensures AtMost(p, k, BEAM_WIDTH) {
      ChooseUpToTen(|p.scored|, k);
      AtMostChoose(p, k, BEAM_WIDTH);
    }
  }
}
