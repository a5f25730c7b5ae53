/** The planner's arithmetic: evidence overlap and the path-dependent score of
    a selection, in exact reals. */
module Scoring {
  import opened Orders
  import opened Contracts

  function Evidence(o: Opportunity): set<string> { Elems(o.evidenceIds) }

  /** Jaccard overlap of two opportunities' evidence. */
  function Overlap(left: Opportunity, right: Opportunity): real {
    var union := Evidence(left) + Evidence(right);
    if union == {} then 0.0
    else |Evidence(left) * Evidence(right)| as real / |union| as real
  }

  function BaseScore(o: Opportunity, p: PlanningPolicy): real {
    o.activityPriority * p.priorityWeight + o.evidenceFit * p.fitWeight
    + o.quality * p.qualityWeight
  }

  function DimensionRepeats(o: Opportunity, chosen: seq<Opportunity>): nat {
    if chosen == [] then 0
    else DimensionRepeats(o, chosen[..|chosen|-1])
         + if chosen[|chosen|-1].dimensionId == o.dimensionId then 1 else 0
  }

  function VariantRepeats(o: Opportunity, chosen: seq<Opportunity>): nat {
    if chosen == [] then 0
    else VariantRepeats(o, chosen[..|chosen|-1])
         + if chosen[|chosen|-1].variantId == o.variantId then 1 else 0
  }

  function OverlapSum(o: Opportunity, chosen: seq<Opportunity>): real {
    if chosen == [] then 0.0
    else OverlapSum(o, chosen[..|chosen|-1]) + Overlap(chosen[|chosen|-1], o)
  }

  /** What adding `o` to the already chosen opportunities earns. */
  function MarginalScore(o: Opportunity, chosen: seq<Opportunity>, p: PlanningPolicy): real {
    BaseScore(o, p)
    - Charge(p.dimensionPenalty, DimensionRepeats(o, chosen) as real)
    - Charge(p.variantPenalty, VariantRepeats(o, chosen) as real)
    - Charge(p.overlapPenalty, OverlapSum(o, chosen))
  }

  function Charge(weight: real, amount: real): real { weight * amount }

  /** The score the search accumulates along an insertion order. */
  function PathScore(items: seq<Opportunity>, p: PlanningPolicy): real {
    if items == [] then 0.0
    else
      var last := |items| - 1;
      PathScore(items[..last], p) + MarginalScore(items[last], items[..last], p)
  }

  // ---- Overlap ----

  lemma OverlapSymmetric(a: Opportunity, b: Opportunity)
    ensures Overlap(a, b) == Overlap(b, a)
  {
    assert Evidence(a) + Evidence(b) == Evidence(b) + Evidence(a);
    assert Evidence(a) * Evidence(b) == Evidence(b) * Evidence(a);
  }

  lemma SubsetSize<T>(a: set<T>, b: set<T>)
    requires a <= b
    ensures |a| <= |b|
    ensures |a| == |b| ==> a == b
  {
    assert b == a + (b - a);
    if |a| == |b| {
      assert |b - a| == 0;
    }
  }

  /** Overlap is a fraction, and it is 1 exactly for equal nonempty evidence sets. */
  lemma OverlapRange(a: Opportunity, b: Opportunity)
    ensures 0.0 <= Overlap(a, b) <= 1.0
    ensures Overlap(a, b) == 1.0 <==> Evidence(a) == Evidence(b) && Evidence(a) != {}
  {
    var meet, union := Evidence(a) * Evidence(b), Evidence(a) + Evidence(b);
    SubsetSize(meet, union);
    if union != {} {
      var m, u := |meet| as real, |union| as real;
      assert 0.0 <= m <= u && 0.0 < u;
      FractionRange(m, u);
      if Evidence(a) == Evidence(b) {
        assert meet == union;
      }
      if Overlap(a, b) == 1.0 {
        assert Evidence(a) <= union == meet && Evidence(b) <= union;
      }
    }
  }

  /** The overlap in terms of the two sizes and the shared identifiers; nothing overlaps
      where there is no evidence. */
  lemma OverlapIsJaccard(a: Opportunity, b: Opportunity)
    ensures Evidence(a) == {} || Evidence(b) == {} ==> Overlap(a, b) == 0.0
    ensures Overlap(a, b) * (|Evidence(a)| + |Evidence(b)| - |Evidence(a) * Evidence(b)|) as real == |Evidence(a) * Evidence(b)| as real
  {
    var meet, union := Evidence(a) * Evidence(b), Evidence(a) + Evidence(b);
    assert |union| == |Evidence(a)| + |Evidence(b)| - |meet|;
    SubsetSize(meet, union);
    if union != {} {
      FractionTimes(|meet| as real, |union| as real);
    }
  }

  lemma FractionTimes(m: real, u: real)
    requires 0.0 < u
    ensures m / u * u == m
  {
  }

  lemma ScaledUp(x: real, y: real, w: real)
    requires w >= 0.0 && x >= y
    ensures Charge(x, w) >= Charge(y, w)
    ensures w > 0.0 && x > y ==> Charge(x, w) > Charge(y, w)
  {
  }

  lemma BaseAsCharges(o: Opportunity, p: PlanningPolicy)
    ensures BaseScore(o, p) ==
              Charge(o.activityPriority, p.priorityWeight) + Charge(o.evidenceFit, p.fitWeight) + Charge(o.quality, p.qualityWeight)
  {
  }

  /** `a` is at least as good as `b` in every measure. */
  predicate Dominates(a: Opportunity, b: Opportunity) {
    a.activityPriority >= b.activityPriority && a.evidenceFit >= b.evidenceFit && a.quality >= b.quality
  }

  /** Some measure that carries weight is strictly better. */
  predicate Exceeds(a: Opportunity, b: Opportunity, p: PlanningPolicy) {
    || (p.priorityWeight > 0.0 && a.activityPriority > b.activityPriority)
    || (p.fitWeight > 0.0 && a.evidenceFit > b.evidenceFit)
    || (p.qualityWeight > 0.0 && a.quality > b.quality)
  }

  predicate Weighted(p: PlanningPolicy) { p.priorityWeight >= 0.0 && p.fitWeight >= 0.0 && p.qualityWeight >= 0.0 }

  lemma DominatingBase(a: Opportunity, b: Opportunity, p: PlanningPolicy)
    requires Weighted(p) && Dominates(a, b)
    ensures BaseScore(a, p) >= BaseScore(b, p)
    ensures Exceeds(a, b, p) ==> BaseScore(a, p) > BaseScore(b, p)
  {
    hide BaseScore, Charge;
    BaseAsCharges(a, p);
    BaseAsCharges(b, p);
    ScaledUp(a.activityPriority, b.activityPriority, p.priorityWeight);
    ScaledUp(a.evidenceFit, b.evidenceFit, p.fitWeight);
    ScaledUp(a.quality, b.quality, p.qualityWeight);
  }

  /** Under weights that are not negative, as the policy model has them, being
      better in every measure never costs: with the same path and evidence the
      dominating opportunity adds at least as much to any selection, and strictly
      more when a weighted measure is strictly better. */
  lemma DominatingAddsNoLess(a: Opportunity, b: Opportunity, chosen: seq<Opportunity>, p: PlanningPolicy)
    requires p.priorityWeight >= 0.0 && p.fitWeight >= 0.0 && p.qualityWeight >= 0.0
    requires a.activityPriority >= b.activityPriority && a.evidenceFit >= b.evidenceFit && a.quality >= b.quality
    requires a.dimensionId == b.dimensionId && a.variantId == b.variantId && Evidence(a) == Evidence(b)
    ensures MarginalScore(a, chosen, p) >= MarginalScore(b, chosen, p)
    ensures p.priorityWeight > 0.0 && a.activityPriority > b.activityPriority ==> MarginalScore(a, chosen, p) > MarginalScore(b, chosen, p)
    ensures p.fitWeight > 0.0 && a.evidenceFit > b.evidenceFit ==> MarginalScore(a, chosen, p) > MarginalScore(b, chosen, p)
    ensures p.qualityWeight > 0.0 && a.quality > b.quality ==> MarginalScore(a, chosen, p) > MarginalScore(b, chosen, p)
  {
    hide MarginalScore, PenaltySum, BaseScore, Evidence;
    DominatingBase(a, b, p);
    MarginalIsBaseLessPenalties(a, chosen, p);
    MarginalIsBaseLessPenalties(b, chosen, p);
    SamePenalties(a, b, chosen, p);
  }

  lemma {:induction false} SamePenalties(a: Opportunity, b: Opportunity, chosen: seq<Opportunity>, p: PlanningPolicy)
    requires a.dimensionId == b.dimensionId && a.variantId == b.variantId && Evidence(a) == Evidence(b)
    ensures PenaltySum(a, chosen, p) == PenaltySum(b, chosen, p)
  {
    if chosen != [] {
      SamePenalties(a, b, chosen[..|chosen|-1], p);
      assert Overlap(chosen[|chosen|-1], a) == Overlap(chosen[|chosen|-1], b) && Overlap(a, chosen[|chosen|-1]) == Overlap(b, chosen[|chosen|-1]);
    }
  }

  lemma FractionRange(m: real, u: real)
    requires 0.0 <= m <= u && 0.0 < u
    ensures 0.0 <= m / u <= 1.0
    ensures m / u == 1.0 <==> m == u
  {
  }

  // ---- The score is a function of the set ----

  /** The symmetric penalty between two chosen opportunities. */
  function Penalty(a: Opportunity, b: Opportunity, p: PlanningPolicy): real {
    (if a.dimensionId == b.dimensionId then p.dimensionPenalty else 0.0)
    + (if a.variantId == b.variantId then p.variantPenalty else 0.0)
    + Charge(p.overlapPenalty, Overlap(a, b))
  }

  function PenaltySum(o: Opportunity, chosen: seq<Opportunity>, p: PlanningPolicy): real {
    if chosen == [] then 0.0
    else PenaltySum(o, chosen[..|chosen|-1], p) + Penalty(o, chosen[|chosen|-1], p)
  }

  function BaseSum(items: seq<Opportunity>, p: PlanningPolicy): real {
    if items == [] then 0.0
    else BaseSum(items[..|items|-1], p) + BaseScore(items[|items|-1], p)
  }

  /** The sum of penalties over unordered pairs of positions. */
  function PairPenalties(items: seq<Opportunity>, p: PlanningPolicy): real {
    if items == [] then 0.0
    else
      var last := |items| - 1;
      PairPenalties(items[..last], p) + PenaltySum(items[last], items[..last], p)
  }

  lemma {:induction false} MarginalIsBaseLessPenalties(o: Opportunity, chosen: seq<Opportunity>, p: PlanningPolicy)
    ensures MarginalScore(o, chosen, p) == BaseScore(o, p) - PenaltySum(o, chosen, p)
  {
    if chosen != [] {
      MarginalIsBaseLessPenalties(o, chosen[..|chosen|-1], p);
      MarginalStep(o, chosen, p);
    }
  }

  lemma MarginalStep(o: Opportunity, chosen: seq<Opportunity>, p: PlanningPolicy)
    requires chosen != []
    ensures MarginalScore(o, chosen, p)
         == MarginalScore(o, chosen[..|chosen|-1], p) - Penalty(o, chosen[|chosen|-1], p)
  {
    hide BaseScore, Charge, Overlap;
    var rest, y := chosen[..|chosen|-1], chosen[|chosen|-1];
    OverlapSymmetric(y, o);
    Bump(p.dimensionPenalty, DimensionRepeats(o, rest), DimensionRepeats(o, chosen), o.dimensionId == y.dimensionId);
    Bump(p.variantPenalty, VariantRepeats(o, rest), VariantRepeats(o, chosen), o.variantId == y.variantId);
    Distribute(p.overlapPenalty, OverlapSum(o, rest), Overlap(o, y), OverlapSum(o, chosen));
  }

  lemma Bump(w: real, before: nat, after: nat, hit: bool)
    requires after == before + if hit then 1 else 0
    ensures Charge(w, after as real) == Charge(w, before as real) + if hit then w else 0.0
  {
    Distribute(w, before as real, if hit then 1.0 else 0.0, after as real);
  }

  lemma Distribute(w: real, a: real, b: real, sum: real)
    requires sum == a + b
    ensures Charge(w, sum) == Charge(w, a) + Charge(w, b)
  {
  }

  /** The accumulated score in closed form. */
  lemma {:induction false} PathScoreClosedForm(items: seq<Opportunity>, p: PlanningPolicy)
    ensures PathScore(items, p) == BaseSum(items, p) - PairPenalties(items, p)
  {
    if items != [] {
      var last := |items| - 1;
      PathScoreClosedForm(items[..last], p);
      MarginalIsBaseLessPenalties(items[last], items[..last], p);
    }
  }

  lemma PenaltySymmetric(a: Opportunity, b: Opportunity, p: PlanningPolicy)
    ensures Penalty(a, b, p) == Penalty(b, a, p)
  {
    OverlapSymmetric(a, b);
  }

  /** Taking one member out of the middle changes a penalty sum by that member only. */
  lemma {:induction false} PenaltySumWithout(o: Opportunity, a: seq<Opportunity>, x: Opportunity, b: seq<Opportunity>, p: PlanningPolicy)
    ensures PenaltySum(o, a + [x] + b, p) == PenaltySum(o, a + b, p) + Penalty(o, x, p)
  {
    hide Penalty;
    var whole, rest := a + [x] + b, a + b;
    if b == [] {
      assert whole[..|whole|-1] == a && rest == a;
    } else {
      var b', y := b[..|b|-1], b[|b|-1];
      PenaltySumWithout(o, a, x, b', p);
      assert whole[..|whole|-1] == a + [x] + b' && rest[..|rest|-1] == a + b';
    }
  }

  /** Any member can be thought of as the one inserted last. */
  lemma {:induction false} InsertedLast(a: seq<Opportunity>, x: Opportunity, b: seq<Opportunity>, p: PlanningPolicy)
    ensures PathScore(a + [x] + b, p) == PathScore(a + b, p) + BaseScore(x, p) - PenaltySum(x, a + b, p)
  {
    hide Penalty, MarginalScore, BaseScore;
    var whole, rest := a + [x] + b, a + b;
    if b == [] {
      assert whole[..|whole|-1] == a && rest == a;
      MarginalIsBaseLessPenalties(x, a, p);
    } else {
      var b', y := b[..|b|-1], b[|b|-1];
      assert whole[..|whole|-1] == a + [x] + b' && rest[..|rest|-1] == a + b';
      InsertedLast(a, x, b', p);
      MarginalIsBaseLessPenalties(y, a + [x] + b', p);
      MarginalIsBaseLessPenalties(y, a + b', p);
      PenaltySumWithout(y, a, x, b', p);
      PenaltySymmetric(x, y, p);
    }
  }

  lemma {:induction false} PenaltySumForgetsOrder(o: Opportunity, a: seq<Opportunity>, b: seq<Opportunity>, p: PlanningPolicy)
    requires multiset(a) == multiset(b)
    ensures PenaltySum(o, a, p) == PenaltySum(o, b, p)
  {
    SameMembers(a, b);
    if a != [] {
      var a', x := a[..|a|-1], a[|a|-1];
      var before, after := SplitAt(b, x);
      RemovedLast(a, before, x, after);
      PenaltySumForgetsOrder(o, a', before + after, p);
      PenaltySumWithout(o, before, x, after, p);
    }
  }

  lemma SplitAt(s: seq<Opportunity>, x: Opportunity) returns (before: seq<Opportunity>, after: seq<Opportunity>)
    requires x in s
    ensures s == before + [x] + after
  {
    var k :| 0 <= k < |s| && s[k] == x;
    before, after := s[..k], s[k+1..];
  }

  lemma RemovedLast(a: seq<Opportunity>, before: seq<Opportunity>, x: Opportunity, after: seq<Opportunity>)
    requires a != [] && x == a[|a|-1] && multiset(a) == multiset(before + [x] + after)
    ensures multiset(a[..|a|-1]) == multiset(before + after)
  {
    assert a == a[..|a|-1] + [x];
    assert multiset(before + [x] + after) == multiset(before) + multiset{x} + multiset(after);
    assert multiset(a[..|a|-1]) == multiset(a) - multiset{x};
  }

  /** The score of a selection does not depend on the order it was built in. */
  lemma {:induction false} PathScoreForgetsOrder(a: seq<Opportunity>, b: seq<Opportunity>, p: PlanningPolicy)
    requires multiset(a) == multiset(b)
    ensures PathScore(a, p) == PathScore(b, p)
  {
    SameMembers(a, b);
    if a != [] {
      var a', x := a[..|a|-1], a[|a|-1];
      var before, after := SplitAt(b, x);
      RemovedLast(a, before, x, after);
      PathScoreForgetsOrder(a', before + after, p);
      PenaltySumForgetsOrder(x, a', before + after, p);
      MarginalIsBaseLessPenalties(x, a', p);
      InsertedLast(before, x, after, p);
    }
  }

  /** Ranking replacements by marginal score ranks the extended selections. */
  lemma MarginalRanksExtensions(chosen: seq<Opportunity>, x: Opportunity, y: Opportunity, p: PlanningPolicy)
    ensures MarginalScore(x, chosen, p) >= MarginalScore(y, chosen, p)
       <==> PathScore(chosen + [x], p) >= PathScore(chosen + [y], p)
  {
    assert (chosen + [x])[..|chosen|] == chosen && (chosen + [y])[..|chosen|] == chosen;
  }
}
