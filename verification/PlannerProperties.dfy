/** What the planner promises about a whole plan. */
module PlannerProperties {
  import opened Orders
  import opened Results
  import opened Contracts
  import opened Scoring
  import opened BeamSearch
  import opened SearchExactness
  import opened Planner
  import opened Validation

  // ---- Lists of opportunities with distinct identifiers ----

  /** Members that share an identifier are the same opportunity. */
  ghost predicate IdKeyed(items: seq<Opportunity>) {
    forall x, y :: x in items && y in items && x.opportunityId == y.opportunityId ==> x == y
  }

  lemma DistinctIdsMeans(items: seq<Opportunity>)
    ensures NoDup(IdsOf(items)) <==> NoDup(items) && IdKeyed(items)
  {
    var ids := IdsOf(items);
    if NoDup(ids) {
      forall x, y | x in items && y in items && x.opportunityId == y.opportunityId ensures x == y {
        var i, j :| 0 <= i < |items| && 0 <= j < |items| && items[i] == x && items[j] == y;
        assert ids[i] == ids[j];
      }
      forall i, j | 0 <= i < j < |items| ensures items[i] != items[j] {
        assert ids[i] != ids[j];
      }
    } else {
      var i, j :| 0 <= i < j < |ids| && ids[i] == ids[j];
      assert items[i] in items && items[j] in items;
    }
  }

  // ---- Candidates ----

  lemma {:induction false} FilteredMembers(os: seq<Opportunity>, c: Constraints, policy: PlanningPolicy)
    ensures forall s :: s in Filtered(os, c, policy) <==>
              s.opportunity in os && IsCandidate(s.opportunity, c, policy) && s.baseScore == BaseScore(s.opportunity, policy)
    ensures NoDup(os) ==> NoDup(Filtered(os, c, policy))
  {
    hide BaseScore, IsCandidate;
    if os != [] {
      FilteredMembers(os[1..], c, policy);
      assert forall o :: o in os <==> o == os[0] || o in os[1..];
    }
  }

  lemma BaseOrder()
    ensures Preorder(BaseLeq)
    ensures forall a, b :: BaseLeq(a, b) && BaseLeq(b, a) ==>
              a.baseScore == b.baseScore && a.opportunity.opportunityId == b.opportunity.opportunityId
  {
    StringOrder();
    forall a, b, c | BaseLeq(a, b) && BaseLeq(b, c) ensures BaseLeq(a, c) {
      var x, y, z := a.opportunity.opportunityId, b.opportunity.opportunityId, c.opportunity.opportunityId;
      assert StringLeq(x, y) && StringLeq(y, z) ==> StringLeq(x, z);
    }
    forall a, b ensures BaseLeq(a, b) || BaseLeq(b, a) {
      var x, y := a.opportunity.opportunityId, b.opportunity.opportunityId;
      assert StringLeq(x, y) || StringLeq(y, x);
    }
  }

  /** The candidates are the eligible opportunities, each once. */
  lemma CandidateFacts(mapping: Mapping, blueprint: Blueprint, policy: PlanningPolicy)
    requires NoDup(IdsOf(mapping.opportunities))
    ensures var p := PlanningProblem(mapping, blueprint, policy);
            UniqueIds(p)
            && forall s :: s in p.scored <==>
                 s.opportunity in mapping.opportunities && IsCandidate(s.opportunity, blueprint.constraints, policy)
                 && s.baseScore == BaseScore(s.opportunity, policy)
  {
    hide BaseScore, IsCandidate;
    var os := mapping.opportunities;
    var p := PlanningProblem(mapping, blueprint, policy);
    var filtered := Filtered(os, blueprint.constraints, policy);
    DistinctIdsMeans(os);
    FilteredMembers(os, blueprint.constraints, policy);
    SameMembers(filtered, p.scored);
    PermutationNoDup(filtered, p.scored);
    forall i, j | 0 <= i < j < |p.scored| ensures p.Item(i).opportunityId != p.Item(j).opportunityId {
      assert p.scored[i] in p.scored && p.scored[j] in p.scored && p.scored[i] != p.scored[j];
    }
  }

  /** The opportunities of the mapping that reach both floors and share a response
      format with the activity. */
  ghost function Eligible(mapping: Mapping, blueprint: Blueprint, policy: PlanningPolicy): set<Opportunity> {
    set o | o in mapping.opportunities && o.quality >= policy.minimumQuality && o.evidenceFit >= policy.minimumFit
            && Elems(o.responseFormats) * Elems(blueprint.constraints.responseFormats) != {}
  }

  lemma CandidateIsEligible(o: Opportunity, c: Constraints, policy: PlanningPolicy)
    ensures IsCandidate(o, c, policy) <==>
              o.quality >= policy.minimumQuality && o.evidenceFit >= policy.minimumFit
              && Elems(o.responseFormats) * Elems(c.responseFormats) != {}
  {
    if f :| f in o.responseFormats && f in c.responseFormats {
      assert f in Elems(o.responseFormats) * Elems(c.responseFormats);
    }
    if Elems(o.responseFormats) * Elems(c.responseFormats) != {} {
      var f :| f in Elems(o.responseFormats) * Elems(c.responseFormats);
    }
  }

  /** What the search works on: the opportunities that reach the floor of quality and
      the floor of fit and share a response format with the activity, each once with
      its own base score, within the minutes of the activity. */
  lemma CandidatesAreEligible(mapping: Mapping, blueprint: Blueprint, policy: PlanningPolicy)
    requires NoDup(IdsOf(mapping.opportunities))
    ensures var p := PlanningProblem(mapping, blueprint, policy);
            && p.budget == blueprint.constraints.targetTotalMinutes && p.policy == policy
            && (forall i, j :: 0 <= i < j < |p.scored| ==> p.Item(i).opportunityId != p.Item(j).opportunityId)
            && (forall s :: s in p.scored ==>
                  s.baseScore == s.opportunity.activityPriority * policy.priorityWeight
                                 + s.opportunity.evidenceFit * policy.fitWeight + s.opportunity.quality * policy.qualityWeight)
            && (forall o :: (exists s :: s in p.scored && s.opportunity == o) <==>
                  o in mapping.opportunities && o.quality >= policy.minimumQuality && o.evidenceFit >= policy.minimumFit
                  && Elems(o.responseFormats) * Elems(blueprint.constraints.responseFormats) != {})
            && |p.scored| == |Eligible(mapping, blueprint, policy)|
  {
    hide IsCandidate;
    var p := PlanningProblem(mapping, blueprint, policy);
    CandidateFacts(mapping, blueprint, policy);
    forall o
      ensures (exists s :: s in p.scored && s.opportunity == o)
              <==> o in mapping.opportunities && IsCandidate(o, blueprint.constraints, policy)
      ensures o in Eligible(mapping, blueprint, policy) <==> o in mapping.opportunities && IsCandidate(o, blueprint.constraints, policy)
    {
      CandidateIsEligible(o, blueprint.constraints, policy);
      if o in mapping.opportunities && IsCandidate(o, blueprint.constraints, policy) {
        assert Scored(o, BaseScore(o, policy)) in p.scored;
      }
    }
    forall o ensures IsCandidate(o, blueprint.constraints, policy) <==>
        o.quality >= policy.minimumQuality && o.evidenceFit >= policy.minimumFit
        && Elems(o.responseFormats) * Elems(blueprint.constraints.responseFormats) != {}
    {
      CandidateIsEligible(o, blueprint.constraints, policy);
    }
    CandidateCount(p, Eligible(mapping, blueprint, policy));
  }

  lemma CandidateCount(p: Problem, eligible: set<Opportunity>)
    requires UniqueIds(p)
    requires forall o :: o in eligible <==> exists s :: s in p.scored && s.opportunity == o
    ensures |p.scored| == |eligible|
  {
    var all := AllItems(p);
    AllItemsMembers(p);
    ElemsSize(all);
    forall o ensures o in Elems(all) <==> o in eligible {
      if s :| s in p.scored && s.opportunity == o {
        var i :| 0 <= i < |p.scored| && p.scored[i] == s;
        assert all[i] == o;
      }
      if o in all {
        var i :| 0 <= i < |all| && all[i] == o;
        assert p.scored[i] in p.scored;
      }
    }
    assert Elems(all) == eligible;
  }

  /** The candidates stand by falling base score, and at equal base score by their
      identifiers. */
  lemma CandidatesAreRanked(mapping: Mapping, blueprint: Blueprint, policy: PlanningPolicy, i: nat, j: nat)
    requires NoDup(IdsOf(mapping.opportunities)) && i < j < |PlanningProblem(mapping, blueprint, policy).scored|
    ensures var s := PlanningProblem(mapping, blueprint, policy).scored;
            s[i].baseScore > s[j].baseScore
            || (s[i].baseScore == s[j].baseScore && Precedes(s[i].opportunity.opportunityId, s[j].opportunity.opportunityId))
  {
    hide BaseScore, StringLeq, Precedes, IsCandidate;
    var p := PlanningProblem(mapping, blueprint, policy);
    CandidateFacts(mapping, blueprint, policy);
    BaseOrder();
    SortBySorted(BaseLeq, Filtered(mapping.opportunities, blueprint.constraints, policy));
    assert BaseLeq(p.scored[i], p.scored[j]);
    StringLeqMeans(p.Item(i).opportunityId, p.Item(j).opportunityId);
  }

  // ---- The plan is a function of the set of opportunities ----

  lemma CandidatesForgetOrder(a: Mapping, b: Mapping, blueprint: Blueprint, policy: PlanningPolicy)
    requires NoDup(IdsOf(a.opportunities)) && multiset(a.opportunities) == multiset(b.opportunities)
    ensures ValidCandidates(a, blueprint, policy) == ValidCandidates(b, blueprint, policy)
  {
    hide BaseScore, IsCandidate;
    var c := blueprint.constraints;
    var x, y := Filtered(a.opportunities, c, policy), Filtered(b.opportunities, c, policy);
    DistinctIdsMeans(a.opportunities);
    SameMembers(a.opportunities, b.opportunities);
    PermutationNoDup(a.opportunities, b.opportunities);
    FilteredMembers(a.opportunities, c, policy);
    FilteredMembers(b.opportunities, c, policy);
    NoDupSameMembers(x, y);
    BaseOrder();
    SortForgetsOrder(BaseLeq, x, y);
  }

  lemma {:induction false} OpportunityEvidenceMembers(os: seq<Opportunity>)
    ensures forall e :: e in OpportunityEvidence(os) <==> exists o :: o in os && e in o.evidenceIds
  {
    if os != [] {
      OpportunityEvidenceMembers(os[1..]);
      assert forall o :: o in os <==> o == os[0] || o in os[1..];
    }
  }

  /** Listing the same opportunities in another order gives the same plan: status,
      primaries, reserve, identifier seed and diagnostics. */
  lemma PlanForgetsOrder(a: Mapping, b: Mapping, blueprint: Blueprint, policy: PlanningPolicy)
    requires MappingModel(a)
    requires b == a.(opportunities := b.opportunities) && multiset(a.opportunities) == multiset(b.opportunities)
    ensures BuildPlan(a, blueprint, policy) == BuildPlan(b, blueprint, policy)
  {
    hide Select, Reserve, Items, MinutesOf, ValidCandidates, SortedSet, OpportunityEvidence, IdsOf;
    CandidatesForgetOrder(a, b, blueprint, policy);
    SameMembers(a.opportunities, b.opportunities);
    OpportunityEvidenceMembers(a.opportunities);
    OpportunityEvidenceMembers(b.opportunities);
    SortedSetForgetsOrder(OpportunityEvidence(a.opportunities), OpportunityEvidence(b.opportunities));
  }

  // ---- The reserve ----

  lemma {:induction false} OutsideMembers(p: Problem, selected: seq<nat>, from: nat)
    requires UniqueIds(p)
    ensures forall o :: o in Outside(p, selected, from) <==>
              exists i :: from <= i < |p.scored| && i !in selected && p.Item(i) == o
    ensures NoDup(Outside(p, selected, from))
    decreases |p.scored| - from
  {
    if from < |p.scored| {
      OutsideMembers(p, selected, from + 1);
      var rest := Outside(p, selected, from + 1);
      assert p.Item(from) !in rest;
      forall o
        ensures o in Outside(p, selected, from) <==> exists i :: from <= i < |p.scored| && i !in selected && p.Item(i) == o
      {
        var later := exists i :: from + 1 <= i < |p.scored| && i !in selected && p.Item(i) == o;
        assert o in rest <==> later;
        assert o in Outside(p, selected, from) <==> later || (from !in selected && o == p.Item(from));
      }
    }
  }

  function AllItems(p: Problem): (r: seq<Opportunity>)
    ensures |r| == |p.scored| && forall i :: 0 <= i < |r| ==> r[i] == p.Item(i)
  {
    seq(|p.scored|, i requires 0 <= i < |p.scored| => p.Item(i))
  }

  lemma ItemsMembers(p: Problem, selected: seq<nat>)
    requires UniqueIds(p) && InRange(p, selected) && Increasing(selected)
    ensures forall o :: o in Items(p, selected) <==> exists i :: 0 <= i < |p.scored| && i in selected && p.Item(i) == o
    ensures NoDup(Items(p, selected))
  {
    var inside := Items(p, selected);
    forall o ensures o in inside <==> exists i :: 0 <= i < |p.scored| && i in selected && p.Item(i) == o {
      if o in inside {
        var k :| 0 <= k < |inside| && inside[k] == o;
        assert selected[k] in selected && p.Item(selected[k]) == o;
      }
      if i :| 0 <= i < |p.scored| && i in selected && p.Item(i) == o {
        var k :| 0 <= k < |selected| && selected[k] == i;
        assert inside[k] == o;
      }
    }
  }

  lemma AllItemsMembers(p: Problem)
    requires UniqueIds(p)
    ensures forall o :: o in AllItems(p) <==> exists i :: 0 <= i < |p.scored| && p.Item(i) == o
    ensures NoDup(AllItems(p)) && IdKeyed(AllItems(p))
  {
    var all := AllItems(p);
    forall o ensures o in all <==> exists i :: 0 <= i < |p.scored| && p.Item(i) == o {
      if i :| 0 <= i < |p.scored| && p.Item(i) == o {
        assert all[i] == o;
      }
    }
  }

  /** Primaries and outside candidates split the candidates. */
  lemma SplitCandidates(p: Problem, selected: seq<nat>)
    requires UniqueIds(p) && InRange(p, selected) && Increasing(selected)
    ensures NoDup(Items(p, selected)) && NoDup(Outside(p, selected, 0))
    ensures forall o :: o in Items(p, selected) ==> o !in Outside(p, selected, 0)
    ensures IdKeyed(AllItems(p))
    ensures forall o :: o in Items(p, selected) || o in Outside(p, selected, 0) <==> o in AllItems(p)
    ensures |Outside(p, selected, 0)| == |p.scored| - |selected|
  {
    hide Increasing, IdKeyed;
    var inside, outside, all := Items(p, selected), Outside(p, selected, 0), AllItems(p);
    OutsideMembers(p, selected, 0);
    ItemsMembers(p, selected);
    AllItemsMembers(p);
    forall o | o in inside ensures o !in outside {
      var i :| 0 <= i < |p.scored| && i in selected && p.Item(i) == o;
    }
    ConcatNoDup(inside, outside);
    assert Elems(inside + outside) == Elems(all);
    ElemsSize(inside + outside);
    ElemsSize(all);
  }

  lemma {:induction false} FillFacts(reserve: seq<Opportunity>, ranked: seq<Opportunity>)
    requires NoDup(reserve)
    ensures var r := Fill(reserve, ranked);
            NoDup(r) && reserve <= r && forall o :: o in r <==> o in reserve || o in ranked
    decreases ranked
  {
    if ranked != [] {
      var next := if ranked[0] in reserve then reserve else reserve + [ranked[0]];
      FillFacts(next, ranked[1..]);
      assert forall o :: o in ranked <==> o == ranked[0] || o in ranked[1..];
    }
  }

  ghost predicate NoneBefore(ranked: seq<Opportunity>, i: nat, flag: bool, reserve: seq<Opportunity>)
    requires i <= |ranked|
  {
    forall j :: 0 <= j < i && ranked[j].justificationRequired == flag ==> ranked[j] in reserve
  }

  lemma {:induction false} FirstOfClassSpec(ranked: seq<Opportunity>, flag: bool, reserve: seq<Opportunity>)
    ensures var r := FirstOfClass(ranked, flag, reserve);
            r.None? <==> forall o :: o in ranked && o.justificationRequired == flag ==> o in reserve
    ensures var r := FirstOfClass(ranked, flag, reserve);
            r.Some? ==> exists i :: 0 <= i < |ranked| && ranked[i] == r.value && NoneBefore(ranked, i, flag, reserve)
    ensures var r := FirstOfClass(ranked, flag, reserve);
            r.Some? ==> r.value.justificationRequired == flag && r.value !in reserve
  {
    if ranked != [] && !(ranked[0].justificationRequired == flag && ranked[0] !in reserve) {
      var rest := ranked[1..];
      FirstOfClassSpec(rest, flag, reserve);
      assert forall o :: o in ranked <==> o == ranked[0] || o in rest;
      var r := FirstOfClass(rest, flag, reserve);
      if r.Some? {
        var i :| 0 <= i < |rest| && rest[i] == r.value && NoneBefore(rest, i, flag, reserve);
        assert ranked[i+1] == r.value;
        forall j | 0 <= j < i + 1 && ranked[j].justificationRequired == flag ensures ranked[j] in reserve {
          if j > 0 {
            assert rest[j-1] == ranked[j];
          }
        }
      }
    } else if ranked != [] {
      assert ranked[0] == FirstOfClass(ranked, flag, reserve).value && NoneBefore(ranked, 0, flag, reserve);
    }
  }

  /** `o` is the first of its class in the ranking. */
  ghost predicate Leads(ranked: seq<Opportunity>, o: Opportunity, flag: bool) {
    o.justificationRequired == flag
    && exists i :: 0 <= i < |ranked| && ranked[i] == o && forall j :: 0 <= j < i ==> ranked[j].justificationRequired != flag
  }

  /** The classes of `flags` that some ranked candidate has. */
  ghost function Replaceable(ranked: seq<Opportunity>, flags: set<bool>): set<bool> {
    set flag | flag in flags && exists o :: o in ranked && o.justificationRequired == flag
  }

  lemma WithClassFacts(ranked: seq<Opportunity>, present: bool, flag: bool, reserve: seq<Opportunity>)
    requires NoDup(reserve) && forall o :: o in reserve ==> o.justificationRequired != flag
    ensures forall o :: o in WithClass(ranked, present, flag, reserve) ==> o in reserve || (o in ranked && o.justificationRequired == flag)
    ensures var r, has := WithClass(ranked, present, flag, reserve), present && exists o :: o in ranked && o.justificationRequired == flag;
            reserve <= r && |r| == |reserve| + (if has then 1 else 0) && NoDup(r)
            && (has ==> Leads(ranked, r[|reserve|], flag))
  {
    FirstOfClassSpec(ranked, flag, reserve);
    var r := FirstOfClass(ranked, flag, reserve);
    if r.Some? {
      var i :| 0 <= i < |ranked| && ranked[i] == r.value && NoneBefore(ranked, i, flag, reserve);
      assert forall j :: 0 <= j < i ==> ranked[j].justificationRequired != flag;
    }
  }

  /** One leader for every replaceable class, True before False. */
  lemma LeadersFacts(ranked: seq<Opportunity>, flags: set<bool>)
    ensures var l := Leaders(ranked, flags);
            NoDup(l) && |l| == |Replaceable(ranked, flags)| <= 2 && (forall o :: o in l ==> o in ranked)
    ensures forall flag :: flag in Replaceable(ranked, flags) ==>
              var k := if flag || true !in Replaceable(ranked, flags) then 0 else 1;
              k < |Leaders(ranked, flags)| && Leads(ranked, Leaders(ranked, flags)[k], flag)
  {
    hide WithClass, Leads, Leaders;
    var one := WithClass(ranked, true in flags, true, []);
    WithClassFacts(ranked, true in flags, true, []);
    WithClassFacts(ranked, false in flags, false, one);
    ClassCount(Replaceable(ranked, flags));
    LeadersAre(ranked, flags);
  }

  lemma LeadersAre(ranked: seq<Opportunity>, flags: set<bool>)
    ensures Leaders(ranked, flags) == WithClass(ranked, false in flags, false, WithClass(ranked, true in flags, true, []))
  {
  }

  lemma ClassCount(classes: set<bool>)
    ensures |classes| == (if true in classes then 1 else 0) + (if false in classes then 1 else 0)
  {
    var yes, no: set<bool> := if true in classes then {true} else {}, if false in classes then {false} else {};
    forall flag ensures flag in classes <==> flag in yes + no {
      if flag {
        assert flag in yes + no <==> true in classes;
      } else {
        assert flag in yes + no <==> false in classes;
      }
    }
    assert classes == yes + no && yes !! no;
  }

  lemma MarginalOrder(primary: seq<Opportunity>, policy: PlanningPolicy)
    ensures Preorder(ByMarginal(primary, policy))
  {
    hide MarginalScore;
    StringOrder();
    var le := ByMarginal(primary, policy);
    forall a, b, c | le(a, b) && le(b, c) ensures le(a, c) {
      assert StringLeq(a.opportunityId, b.opportunityId) && StringLeq(b.opportunityId, c.opportunityId)
        ==> StringLeq(a.opportunityId, c.opportunityId);
    }
    forall a, b ensures le(a, b) || le(b, a) {
      assert StringLeq(a.opportunityId, b.opportunityId) || StringLeq(b.opportunityId, a.opportunityId);
    }
  }

  function Min(a: nat, b: nat): nat { if a <= b then a else b }

  /** Filling up from the leaders rearranges the ranking without loss. */
  lemma FullReserve(ranked: seq<Opportunity>, flags: set<bool>)
    requires NoDup(ranked)
    ensures var full := Fill(Leaders(ranked, flags), ranked);
            NoDup(full) && |full| == |ranked| && forall o :: o in full <==> o in ranked
  {
    LeadersFacts(ranked, flags);
    FillFacts(Leaders(ranked, flags), ranked);
    var full := Fill(Leaders(ranked, flags), ranked);
    assert Elems(full) == Elems(ranked);
    ElemsSize(full);
    ElemsSize(ranked);
  }

  lemma ReserveMembers(p: Problem, selected: seq<nat>)
    requires InRange(p, selected) && NoDup(Outside(p, selected, 0))
    ensures var r, outside := Reserve(p, selected), Outside(p, selected, 0);
            NoDup(r) && |r| == Min(p.policy.maxReserve, |outside|) && forall o :: o in r ==> o in outside
  {
    hide Outside, Leaders, Fill, ByMarginal, Items;
    var outside, ranked := Outside(p, selected, 0), RankedOutside(p, selected);
    SameMembers(outside, ranked);
    PermutationNoDup(outside, ranked);
    FullReserve(ranked, Flags(p, selected));
  }

  /** The reserve has the promised size, no repetition and no primary. */
  lemma ReserveIsDisjoint(p: Problem, selected: seq<nat>)
    requires UniqueIds(p) && InRange(p, selected) && Increasing(selected)
    ensures |selected| <= |p.scored|
    ensures var r := Reserve(p, selected);
            |r| == Min(p.policy.maxReserve, |p.scored| - |selected|)
            && (forall o :: o in r ==> o in Outside(p, selected, 0))
            && NoDup(IdsOf(Items(p, selected) + r))
  {
    hide Outside, Reserve, Items, Increasing;
    SplitCandidates(p, selected);
    ReserveMembers(p, selected);
    DistinctIdsMeans(Items(p, selected) + Reserve(p, selected));
  }

  /** `o` replaces better than `x`: the completed selection scores more, or as much
      and `o` has the identifier that stands first. */
  ghost predicate ReplacesBefore(p: Problem, selected: seq<nat>, o: Opportunity, x: Opportunity)
    requires InRange(p, selected)
  {
    var a, b := PathScore(Items(p, selected) + [o], p.policy), PathScore(Items(p, selected) + [x], p.policy);
    a > b || (a == b && Precedes(o.opportunityId, x.opportunityId))
  }

  lemma MarginalIsReplacing(p: Problem, selected: seq<nat>, o: Opportunity, x: Opportunity)
    requires InRange(p, selected) && o.opportunityId != x.opportunityId
    ensures MarginalLeq(Items(p, selected), p.policy, o, x) <==> ReplacesBefore(p, selected, o, x)
  {
    hide MarginalScore, PathScore, Items, StringLeq, Precedes;
    MarginalRanksExtensions(Items(p, selected), o, x, p.policy);
    MarginalRanksExtensions(Items(p, selected), x, o, p.policy);
    StringLeqMeans(o.opportunityId, x.opportunityId);
  }

  /** The reserve begins with the best replacement of every primary justification
      class that has one, the class that asks for justification first, as far as it
      has room; "best" is judged on the score of the completed selection. */
  lemma ReserveLeadsWithBest(p: Problem, selected: seq<nat>, flag: bool)
    requires UniqueIds(p) && InRange(p, selected)
    requires flag in Flags(p, selected) && flag in RemainingFlags(p, selected)
    requires p.policy.maxReserve >= if flag then 1 else 2
    ensures var k := if flag || true !in Flags(p, selected) * RemainingFlags(p, selected) then 0 else 1;
            k < |Reserve(p, selected)|
            && var o := Reserve(p, selected)[k];
               o in Outside(p, selected, 0) && o.justificationRequired == flag
               && forall x :: x in Outside(p, selected, 0) && x.justificationRequired == flag && x != o ==>
                    ReplacesBefore(p, selected, o, x)
  {
    hide MarginalScore, PathScore, Items, RankedOutside, Outside, ReplacesBefore, Flags, RemainingFlags, UniqueIds;
    var flags, ranked := Flags(p, selected), RankedOutside(p, selected);
    OutsideClasses(p, selected);
    LeadersFacts(ranked, flags);
    var leaders := Leaders(ranked, flags);
    FillFacts(leaders, ranked);
    assert flag in Replaceable(ranked, flags);
    var k := if flag || true !in Replaceable(ranked, flags) then 0 else 1;
    assert leaders[k] == Fill(leaders, ranked)[k];
    assert Reserve(p, selected)[k] == leaders[k];
    LeaderIsBest(p, selected, leaders[k], flag);
  }

  lemma OutsideClasses(p: Problem, selected: seq<nat>)
    requires UniqueIds(p) && InRange(p, selected)
    ensures Replaceable(RankedOutside(p, selected), Flags(p, selected)) == Flags(p, selected) * RemainingFlags(p, selected)
    ensures forall o :: o in RankedOutside(p, selected) <==> o in Outside(p, selected, 0)
  {
    hide ByMarginal, Items, Flags;
    var ranked := RankedOutside(p, selected);
    OutsideMembers(p, selected, 0);
    SameMembers(Outside(p, selected, 0), ranked);
    forall flag ensures (exists o :: o in ranked && o.justificationRequired == flag) <==> flag in RemainingFlags(p, selected) {
      if flag in RemainingFlags(p, selected) {
        var i :| 0 <= i < |p.scored| && i !in selected && p.Item(i).justificationRequired == flag;
        assert p.Item(i) in ranked;
      }
      if o :| o in ranked && o.justificationRequired == flag {
        var i :| 0 <= i < |p.scored| && i !in selected && p.Item(i) == o;
      }
    }
  }

  lemma LeaderIsBest(p: Problem, selected: seq<nat>, o: Opportunity, flag: bool)
    requires UniqueIds(p) && InRange(p, selected) && Leads(RankedOutside(p, selected), o, flag)
    ensures forall x :: x in Outside(p, selected, 0) && x.justificationRequired == flag && x != o ==> ReplacesBefore(p, selected, o, x)
  {
    hide MarginalScore, PathScore, Items, Outside, ReplacesBefore, MarginalLeq, UniqueIds;
    var primary, outside, ranked := Items(p, selected), Outside(p, selected, 0), RankedOutside(p, selected);
    MarginalOrder(primary, p.policy);
    SortBySorted(ByMarginal(primary, p.policy), outside);
    SameMembers(outside, ranked);
    OutsideIdsDiffer(p, selected);
    var at :| 0 <= at < |ranked| && ranked[at] == o && forall j :: 0 <= j < at ==> ranked[j].justificationRequired != flag;
    forall x | x in outside && x.justificationRequired == flag && x != o ensures ReplacesBefore(p, selected, o, x) {
      var j :| 0 <= j < |ranked| && ranked[j] == x;
      assert ByMarginal(primary, p.policy)(ranked[at], ranked[j]);
      MarginalIsReplacing(p, selected, o, x);
    }
  }

  lemma OutsideIdsDiffer(p: Problem, selected: seq<nat>)
    requires UniqueIds(p)
    ensures forall o, x :: o in Outside(p, selected, 0) && x in Outside(p, selected, 0) && o != x ==> o.opportunityId != x.opportunityId
  {
    OutsideMembers(p, selected, 0);
  }

  /** The ranking without the members of `reserve`. */
  function Without(ranked: seq<Opportunity>, reserve: seq<Opportunity>): seq<Opportunity> {
    if ranked == [] then []
    else if ranked[0] in reserve then Without(ranked[1..], reserve)
    else [ranked[0]] + Without(ranked[1..], reserve)
  }

  lemma {:induction false} WithoutIgnores(ranked: seq<Opportunity>, reserve: seq<Opportunity>, x: Opportunity)
    requires x !in ranked
    ensures Without(ranked, reserve + [x]) == Without(ranked, reserve)
  {
    if ranked != [] {
      WithoutIgnores(ranked[1..], reserve, x);
    }
  }

  lemma {:induction false} FillIsLeadersThenRest(reserve: seq<Opportunity>, ranked: seq<Opportunity>)
    requires NoDup(ranked)
    ensures Fill(reserve, ranked) == reserve + Without(ranked, reserve)
    decreases ranked
  {
    if ranked != [] {
      var x, rest := ranked[0], ranked[1..];
      assert x !in rest;
      if x in reserve {
        FillIsLeadersThenRest(reserve, rest);
      } else {
        FillIsLeadersThenRest(reserve + [x], rest);
        WithoutIgnores(rest, reserve, x);
        assert reserve + [x] + Without(rest, reserve) == reserve + ([x] + Without(rest, reserve));
      }
    }
  }

  lemma HeadIsLeast(le: (Opportunity, Opportunity) -> bool, ranked: seq<Opportunity>, x: Opportunity)
    requires Sorted(le, ranked) && ranked != [] && x in ranked[1..]
    ensures le(ranked[0], x)
  {
    var j :| 0 <= j < |ranked[1..]| && ranked[1..][j] == x;
    assert ranked[j+1] == x;
  }

  lemma {:induction false} WithoutIsSorted(le: (Opportunity, Opportunity) -> bool, ranked: seq<Opportunity>, reserve: seq<Opportunity>)
    requires Sorted(le, ranked)
    ensures Sorted(le, Without(ranked, reserve))
    ensures forall x :: x in Without(ranked, reserve) <==> x in ranked && x !in reserve
  {
    if ranked != [] {
      var tail := ranked[1..];
      assert ranked == [ranked[0]] + tail;
      WithoutIsSorted(le, tail, reserve);
      var rest := Without(tail, reserve);
      forall k | 0 <= k < |rest| ensures le(ranked[0], rest[k]) {
        HeadIsLeast(le, ranked, rest[k]);
      }
    }
  }

  /** Behind the class leaders the reserve is the best of the rest, in order: an entry
      replaces better than every later entry and than whatever is left out. */
  lemma ReserveRestIsRanked(p: Problem, selected: seq<nat>, i: nat, x: Opportunity)
    requires UniqueIds(p) && InRange(p, selected)
    requires |Flags(p, selected) * RemainingFlags(p, selected)| <= i < |Reserve(p, selected)|
    requires x in Outside(p, selected, 0) && x !in Reserve(p, selected)[..i+1]
    ensures ReplacesBefore(p, selected, Reserve(p, selected)[i], x)
  {
    hide MarginalScore, MarginalLeq, ReplacesBefore, Items, Outside, Leaders, StringLeq, Without, Fill, NoDup, Flags, RemainingFlags, UniqueIds, PathScore;
    var primary, outside := Items(p, selected), Outside(p, selected, 0);
    var ranked := RankedOutside(p, selected);
    var leaders := Leaders(ranked, Flags(p, selected));
    var le := ByMarginal(primary, p.policy);
    OutsideMembers(p, selected, 0);
    OutsideClasses(p, selected);
    LeadersFacts(ranked, Flags(p, selected));
    SameMembers(outside, ranked);
    PermutationNoDup(outside, ranked);
    MarginalOrder(primary, p.policy);
    SortBySorted(le, outside);
    FillIsLeadersThenRest(leaders, ranked);
    WithoutIsSorted(le, ranked, leaders);
    var r := Reserve(p, selected);
    LeadersComeFirst(leaders, Without(ranked, leaders), r, i, x);
    LaterIsNoBetter(le, leaders, Without(ranked, leaders), r, i, x);
    ReserveMembers(p, selected);
    OutsideIdsDiffer(p, selected);
    assert r[i] in r && r[i] == r[..i+1][i];
    MarginalIsReplacing(p, selected, r[i], x);
  }

  lemma LeadersComeFirst(leaders: seq<Opportunity>, rest: seq<Opportunity>, reserve: seq<Opportunity>, i: nat, x: Opportunity)
    requires reserve <= leaders + rest && |leaders| <= i < |reserve| && x !in reserve[..i+1]
    ensures x !in leaders
  {
    forall k | 0 <= k < |leaders| ensures leaders[k] in reserve[..i+1] {
      assert reserve[..i+1][k] == leaders[k];
    }
  }

  lemma LaterIsNoBetter(le: (Opportunity, Opportunity) -> bool, leaders: seq<Opportunity>, rest: seq<Opportunity>,
                        reserve: seq<Opportunity>, i: nat, x: Opportunity)
    requires Sorted(le, rest) && reserve <= leaders + rest && |leaders| <= i < |reserve|
    requires x in rest && x !in reserve[..i+1]
    ensures le(reserve[i], x)
  {
    var k :| 0 <= k < |rest| && rest[k] == x;
    var at := i - |leaders|;
    assert forall m :: 0 <= m <= at ==> reserve[..i+1][|leaders| + m] == rest[m];
    assert reserve[i] == rest[at];
  }

  // ---- The whole plan ----

  lemma {:induction false} MinutesAgree(p: Problem, selected: seq<nat>)
    requires InRange(p, selected)
    ensures MinutesOf(Items(p, selected)) == Minutes(p, selected)
  {
    if selected != [] {
      var last := |selected| - 1;
      MinutesAgree(p, selected[..last]);
      assert Items(p, selected)[..last] == Items(p, selected[..last]);
    }
  }

  /** Field bounds that the blueprint and policy models enforce. */
  predicate InputBounds(blueprint: Blueprint, policy: PlanningPolicy) {
    && 1 <= blueprint.constraints.questionCount <= 20
    && 3 <= blueprint.constraints.targetTotalMinutes <= 120
    && policy.maxReserve <= 10
  }

  /** `plan` presents the selection: its opportunities, a disjoint reserve of the
      largest permitted size, and the minutes it takes. */
  ghost predicate Presents(plan: Plan, p: Problem, selected: seq<nat>) {
    && InRange(p, selected)
    && plan.selectedIds == IdTuple(p, selected)
    && plan.reserveIds == IdsOf(Reserve(p, selected))
    && plan.totalMinutes == Minutes(p, selected)
    && |plan.reserveIds| == Min(p.policy.maxReserve, if |selected| <= |p.scored| then |p.scored| - |selected| else 0)
    && NoDup(plan.selectedIds + plan.reserveIds)
  }

  lemma IdsOfConcat(a: seq<Opportunity>, b: seq<Opportunity>)
    ensures IdsOf(a + b) == IdsOf(a) + IdsOf(b)
  {
  }

  lemma ReadyPlanPresents(mapping: Mapping, blueprint: Blueprint, p: Problem, selected: seq<nat>)
    requires UniqueIds(p) && InRange(p, selected) && Increasing(selected)
    ensures Presents(ReadyPlan(mapping, blueprint, p, selected), p, selected)
  {
    hide Minutes, Reserve, Outside, MinutesOf, Items, IdsOf, UniqueIds;
    ReserveIsDisjoint(p, selected);
    MinutesAgree(p, selected);
    IdsOfConcat(Items(p, selected), Reserve(p, selected));
  }

  /** What a READY plan is: a feasible selection of exactly N candidates that
      meets the justification mode, presented with its reserve. */
  lemma ReadyPlanMeaning(mapping: Mapping, blueprint: Blueprint, policy: PlanningPolicy)
    requires MappingModel(mapping)
    ensures var plan, p := PlanCandidates(mapping, blueprint, policy), PlanningProblem(mapping, blueprint, policy);
            plan.status == Ready ==>
              exists selected :: FeasibleOfSize(p, selected, blueprint.constraints.questionCount)
                && MeetsMode(p, blueprint.constraints.mode, selected) && Presents(plan, p, selected)
  {
    hide Minutes, Compatible, MeetsSelectedRule, ValidCandidates, PathScore, SortedSet, OpportunityEvidence, ReadyPlan, Presents, UniqueIds, Select, IsCandidate;
    var count, mode := blueprint.constraints.questionCount, blueprint.constraints.mode;
    var p := PlanningProblem(mapping, blueprint, policy);
    var plan := PlanCandidates(mapping, blueprint, policy);
    if plan.status == Ready {
      CandidateFacts(mapping, blueprint, policy);
      SelectIsSound(p, count, mode, BEAM_WIDTH);
      var selected := Select(p, count, mode, BEAM_WIDTH).value.selected;
      ReadyPlanPresents(mapping, blueprint, p, selected);
    }
  }

  lemma IdsKnown(items: seq<Opportunity>, os: seq<Opportunity>)
    requires forall o :: o in items ==> o in os
    ensures forall id :: id in IdsOf(items) ==> id in IdsOf(os)
  {
    forall id | id in IdsOf(items) ensures id in IdsOf(os) {
      var k :| 0 <= k < |items| && items[k].opportunityId == id;
      assert items[k] in os;
      var m :| 0 <= m < |os| && os[m] == items[k];
      assert IdsOf(os)[m] == id;
    }
  }

  /** A plan names only opportunities of the mapping. */
  lemma PresentedIdsKnown(mapping: Mapping, blueprint: Blueprint, policy: PlanningPolicy, plan: Plan, selected: seq<nat>)
    requires MappingModel(mapping)
    requires var p := PlanningProblem(mapping, blueprint, policy);
             Presents(plan, p, selected) && Increasing(selected)
    ensures forall id :: id in plan.selectedIds + plan.reserveIds ==> id in IdsOf(mapping.opportunities)
  {
    hide BaseScore, IsCandidate, Reserve, ValidCandidates, Outside, Minutes, Items, IdsOf;
    var p := PlanningProblem(mapping, blueprint, policy);
    CandidateFacts(mapping, blueprint, policy);
    SplitCandidates(p, selected);
    ReserveIsDisjoint(p, selected);
    var all := Items(p, selected) + Reserve(p, selected);
    forall o | o in all ensures o in mapping.opportunities {
      assert o in AllItems(p);
      var i :| 0 <= i < |p.scored| && AllItems(p)[i] == o;
      assert p.scored[i] in p.scored;
    }
    IdsKnown(all, mapping.opportunities);
    IdsOfConcat(Items(p, selected), Reserve(p, selected));
  }

  /** Every primary and every reserve entry of a READY plan names an opportunity of the
      mapping that reaches the floor of quality and the floor of fit and can be asked
      in a format of the activity. */
  lemma PlannedReachTheFloors(mapping: Mapping, blueprint: Blueprint, policy: PlanningPolicy, id: string)
    requires MappingModel(mapping) && PlanCandidates(mapping, blueprint, policy).status == Ready
    requires var plan := PlanCandidates(mapping, blueprint, policy); id in plan.selectedIds + plan.reserveIds
    ensures exists o :: o in mapping.opportunities && o.opportunityId == id
              && o.quality >= policy.minimumQuality && o.evidenceFit >= policy.minimumFit
              && Elems(o.responseFormats) * Elems(blueprint.constraints.responseFormats) != {}
  {
    hide BaseScore, Reserve, ValidCandidates, Outside, Minutes, Items, IdsOf, PlanCandidates, MeetsMode, Compatible;
    var plan, p := PlanCandidates(mapping, blueprint, policy), PlanningProblem(mapping, blueprint, policy);
    ReadyPlanMeaning(mapping, blueprint, policy);
    var selected :| FeasibleOfSize(p, selected, blueprint.constraints.questionCount) && Presents(plan, p, selected);
    CandidateFacts(mapping, blueprint, policy);
    assert Presents(plan, p, selected);
    assert plan.selectedIds == IdTuple(p, selected) && plan.reserveIds == IdsOf(Reserve(p, selected));
    PlannedAreCandidates(p, selected, id);
    CandidatesAreEligible(mapping, blueprint, policy);
  }

  lemma PlannedAreCandidates(p: Problem, selected: seq<nat>, id: string)
    requires UniqueIds(p) && InRange(p, selected) && Increasing(selected)
    requires id in IdTuple(p, selected) + IdsOf(Reserve(p, selected))
    ensures exists s :: s in p.scored && s.opportunity.opportunityId == id
  {
    hide Reserve, Outside, Items, UniqueIds, Increasing;
    SplitCandidates(p, selected);
    ReserveIsDisjoint(p, selected);
    var all := Items(p, selected) + Reserve(p, selected);
    IdsOfConcat(Items(p, selected), Reserve(p, selected));
    var k :| 0 <= k < |all| && IdsOf(all)[k] == id;
    assert all[k] in AllItems(p);
    var i :| 0 <= i < |p.scored| && AllItems(p)[i] == all[k];
    assert p.scored[i] in p.scored;
  }

  lemma FailureIsAtomic(status: Status, mapping: Mapping, blueprint: Blueprint, evidence: seq<string>, details: Details)
    requires 1 <= blueprint.constraints.questionCount <= 20
    requires Plannable(status) || status == AssessmentPlanInfeasible
    ensures var plan := CompleteFailure(status, mapping.submissionId, blueprint, evidence, details);
            PlanModel(plan) && CheckAssessmentPlan(plan, mapping).Pass?
  {
    var plan := CompleteFailure(status, mapping.submissionId, blueprint, evidence, details);
    assert plan.diagnostics[0] in plan.diagnostics;
  }

  /** On every mapping whose status the planner admits it returns a plan, and the
      plan satisfies its model and its contextual validator: a READY plan is whole
      and a failed plan exposes nothing. */
  lemma PlannerIsTotal(mapping: Mapping, blueprint: Blueprint, policy: PlanningPolicy)
    requires MappingModel(mapping) && InputBounds(blueprint, policy)
    requires mapping.submissionId != "" && (mapping.status == Ready || Plannable(mapping.status))
    ensures var r := BuildPlan(mapping, blueprint, policy);
            r.Ok? && PlanModel(r.value) && CheckAssessmentPlan(r.value, mapping).Pass?
    ensures var plan := BuildPlan(mapping, blueprint, policy).value;
            && 1 <= plan.questionCount <= 20 && |plan.selectedIds| <= 20 && |plan.reserveIds| <= 10 && plan.totalMinutes <= 120
            && (if plan.status == Ready then |plan.selectedIds| == plan.questionCount else plan.selectedIds == plan.reserveIds == [])
            && (forall i, j :: 0 <= i < j < |plan.selectedIds| ==> plan.selectedIds[i] != plan.selectedIds[j])
            && (forall i, j :: 0 <= i < j < |plan.reserveIds| ==> plan.reserveIds[i] != plan.reserveIds[j])
            && (forall id :: id in plan.selectedIds ==> id !in plan.reserveIds)
            && (forall d :: d in plan.diagnostics ==> |d.evidenceIds| <= 100)
            && plan.status in {Ready, InsufficientRelevantEvidence, InsufficientDistinctOpportunities,
                               EvidenceMappingUncertain, AssessmentPlanInfeasible}
  {
    hide Select, Reserve, SortedSet, OpportunityEvidence, DiagnosticEvidence, Minutes, ValidCandidates, MeetsMode, CompleteFailure;
    var plan := BuildPlan(mapping, blueprint, policy).value;
    if mapping.status != Ready {
      FailureIsAtomic(mapping.status, mapping, blueprint, SortedSet(DiagnosticEvidence(mapping.diagnostics)), MappingStatus(mapping.status));
    } else {
      PlanCandidatesIsAtomic(mapping, blueprint, policy);
    }
  }

  lemma PlanCandidatesIsAtomic(mapping: Mapping, blueprint: Blueprint, policy: PlanningPolicy)
    requires MappingModel(mapping) && InputBounds(blueprint, policy)
    ensures var plan := PlanCandidates(mapping, blueprint, policy);
            PlanModel(plan) && CheckAssessmentPlan(plan, mapping).Pass?
  {
    hide Select, Reserve, SortedSet, OpportunityEvidence, Minutes, ValidCandidates, MeetsMode, CompleteFailure;
    var count := blueprint.constraints.questionCount;
    var evidence := SortedSet(OpportunityEvidence(mapping.opportunities));
    var p := PlanningProblem(mapping, blueprint, policy);
    var plan := PlanCandidates(mapping, blueprint, policy);
    FailureIsAtomic(InsufficientRelevantEvidence, mapping, blueprint, evidence, RelevantCounts(0, count));
    FailureIsAtomic(InsufficientDistinctOpportunities, mapping, blueprint, evidence, DistinctCounts(|p.scored|, count));
    FailureIsAtomic(AssessmentPlanInfeasible, mapping, blueprint, evidence,
                    InfeasibleCounts(|p.scored|, count, blueprint.constraints.targetTotalMinutes));
    FailuresAreNotReady(mapping, blueprint, evidence);
    if plan.status == Ready {
      ReadyPlanMeaning(mapping, blueprint, policy);
      var selected :| FeasibleOfSize(p, selected, count) && Presents(plan, p, selected);
      ReadyPlanIsAtomic(mapping, blueprint, policy, plan, selected);
    }
  }

  lemma FailuresAreNotReady(mapping: Mapping, blueprint: Blueprint, evidence: seq<string>)
    ensures forall status, details :: CompleteFailure(status, mapping.submissionId, blueprint, evidence, details).status == status
  {
  }

  lemma ReadyPlanIsAtomic(mapping: Mapping, blueprint: Blueprint, policy: PlanningPolicy, plan: Plan, selected: seq<nat>)
    requires MappingModel(mapping) && InputBounds(blueprint, policy)
    requires plan == PlanCandidates(mapping, blueprint, policy) && plan.status == Ready
    requires var p := PlanningProblem(mapping, blueprint, policy);
             FeasibleOfSize(p, selected, blueprint.constraints.questionCount) && Presents(plan, p, selected)
    ensures PlanModel(plan) && CheckAssessmentPlan(plan, mapping).Pass?
  {
    hide Select, Reserve, SortedSet, OpportunityEvidence, Minutes, ValidCandidates, CompleteFailure, Compatible;
    FailuresAreNotReady(mapping, blueprint, SortedSet(OpportunityEvidence(mapping.opportunities)));
    PresentedIdsKnown(mapping, blueprint, policy, plan, selected);
    ConcatNoDup(plan.selectedIds, plan.reserveIds);
  }

  /** The outcomes of planning a READY mapping, told apart by the candidates and
      the search alone. */
  lemma OutcomesPartition(mapping: Mapping, blueprint: Blueprint, policy: PlanningPolicy)
    requires mapping.status == Ready && mapping.submissionId != ""
    ensures var r, p := BuildPlan(mapping, blueprint, policy), PlanningProblem(mapping, blueprint, policy);
            var n, found := blueprint.constraints.questionCount, Select(p, blueprint.constraints.questionCount, blueprint.constraints.mode, BEAM_WIDTH);
            r.Ok?
            && (r.value.status == InsufficientRelevantEvidence <==>
                  forall o :: o in mapping.opportunities && o.quality >= policy.minimumQuality && o.evidenceFit >= policy.minimumFit ==>
                    Elems(o.responseFormats) * Elems(blueprint.constraints.responseFormats) == {})
            && (r.value.status == InsufficientDistinctOpportunities <==> 0 < |p.scored| < n)
            && (r.value.status == AssessmentPlanInfeasible <==> |p.scored| >= n && p.scored != [] && found.None?)
            && (r.value.status == Ready <==> |p.scored| >= n && p.scored != [] && found.Some?)
  {
    hide Select, Reserve, SortedSet, OpportunityEvidence, IsCandidate, BaseScore;
    FilteredMembers(mapping.opportunities, blueprint.constraints, policy);
    var p := PlanningProblem(mapping, blueprint, policy);
    var filtered := Filtered(mapping.opportunities, blueprint.constraints, policy);
    forall o | o in mapping.opportunities
      ensures IsCandidate(o, blueprint.constraints, policy) ==> Scored(o, BaseScore(o, policy)) in filtered
      ensures IsCandidate(o, blueprint.constraints, policy) <==> o in Eligible(mapping, blueprint, policy)
    {
      CandidateIsEligible(o, blueprint.constraints, policy);
    }
    assert filtered != [] ==> filtered[0] in filtered && filtered[0].opportunity in Eligible(mapping, blueprint, policy);
  }

  lemma FailedPlanDiagnostic(mapping: Mapping, blueprint: Blueprint, policy: PlanningPolicy)
    ensures var plan := PlanCandidates(mapping, blueprint, policy);
            plan.status != Ready ==>
              |plan.diagnostics| == 1
              && plan.diagnostics[0].evidenceIds == Take(SortedSet(OpportunityEvidence(mapping.opportunities)), 100)
  {
    hide Select, Reserve, Items, ValidCandidates, MinutesOf, SortedSet, OpportunityEvidence, Take;
  }

  /** The diagnostic of a failed READY mapping names evidence of its opportunities, in
      ascending order and without repetition, and all of it below the limit of 100. */
  lemma FailureNamesEvidence(mapping: Mapping, blueprint: Blueprint, policy: PlanningPolicy)
    requires PlanCandidates(mapping, blueprint, policy).status != Ready
    ensures |PlanCandidates(mapping, blueprint, policy).diagnostics| == 1
    ensures var ids := PlanCandidates(mapping, blueprint, policy).diagnostics[0].evidenceIds;
            NoDup(ids) && |ids| <= 100 && (forall i, j :: 0 <= i < j < |ids| ==> Precedes(ids[i], ids[j]))
            && (forall e :: e in ids ==> exists o :: o in mapping.opportunities && e in o.evidenceIds)
            && (|ids| < 100 ==> forall o, e :: o in mapping.opportunities && e in o.evidenceIds ==> e in ids)
  {
    hide PlanCandidates, SortedSet, OpportunityEvidence, Take, NoDup, Precedes;
    FailedPlanDiagnostic(mapping, blueprint, policy);
    OpportunityEvidenceMembers(mapping.opportunities);
    FirstHundred(OpportunityEvidence(mapping.opportunities));
  }

  /** What a plan without questions tells: whose it is, one final diagnostic, and how
      many eligible opportunities there were against how many were needed. */
  lemma FailedPlanTells(mapping: Mapping, blueprint: Blueprint, policy: PlanningPolicy)
    requires MappingModel(mapping) && PlanCandidates(mapping, blueprint, policy).status != Ready
    ensures var plan, n, eligible := PlanCandidates(mapping, blueprint, policy), blueprint.constraints.questionCount, |Eligible(mapping, blueprint, policy)|;
            && plan.submissionId == mapping.submissionId && plan.questionCount == n
            && plan.blueprintId == blueprint.blueprintId && plan.version == blueprint.version
            && plan.seed == FailureSeed(mapping.submissionId, blueprint.blueprintId, blueprint.version, plan.status, n)
            && plan.selectedIds == plan.reserveIds == [] && plan.totalMinutes == 0
            && |plan.diagnostics| == 1
            && var d := plan.diagnostics[0];
               d.code == OfStatus(plan.status) && d.severity == Error && !d.retryable
               && match plan.status
                  case InsufficientRelevantEvidence => eligible == 0 && d.details == RelevantCounts(0, n)
                  case InsufficientDistinctOpportunities => 0 < eligible < n && d.details == DistinctCounts(eligible, n)
                  case AssessmentPlanInfeasible =>
                    eligible >= n && d.details == InfeasibleCounts(eligible, n, blueprint.constraints.targetTotalMinutes)
                  case _ => false
  {
    hide Select, Reserve, Items, ValidCandidates, MinutesOf, SortedSet, OpportunityEvidence, Take, Eligible, BaseScore;
    CandidatesAreEligible(mapping, blueprint, policy);
  }

  /** What a READY plan tells: its identifier is made of exactly what it presents. */
  lemma ReadyPlanTells(mapping: Mapping, blueprint: Blueprint, policy: PlanningPolicy)
    requires MappingModel(mapping) && PlanCandidates(mapping, blueprint, policy).status == Ready
    ensures var plan, n := PlanCandidates(mapping, blueprint, policy), blueprint.constraints.questionCount;
            && plan.submissionId == mapping.submissionId && plan.questionCount == n == |plan.selectedIds|
            && plan.blueprintId == blueprint.blueprintId && plan.version == blueprint.version
            && plan.seed == ReadySeed(mapping.submissionId, blueprint.blueprintId, blueprint.version, plan.selectedIds, plan.reserveIds)
            && plan.totalMinutes <= blueprint.constraints.targetTotalMinutes && plan.diagnostics == []
            && var eligible := |Eligible(mapping, blueprint, policy)|;
               n <= eligible && |plan.reserveIds| == Min(policy.maxReserve, eligible - n)
  {
    hide *;
    ReadyPlanFields(mapping, blueprint, policy);
    ReadyPlanSizes(mapping, blueprint, policy);
  }

  lemma ReadyPlanSizes(mapping: Mapping, blueprint: Blueprint, policy: PlanningPolicy)
    requires MappingModel(mapping) && PlanCandidates(mapping, blueprint, policy).status == Ready
    ensures var plan, n := PlanCandidates(mapping, blueprint, policy), blueprint.constraints.questionCount;
            |plan.selectedIds| == n && plan.totalMinutes <= blueprint.constraints.targetTotalMinutes
            && var eligible := |Eligible(mapping, blueprint, policy)|;
               n <= eligible && |plan.reserveIds| == Min(policy.maxReserve, eligible - n)
  {
    hide *;
    var p, plan, n := PlanningProblem(mapping, blueprint, policy), PlanCandidates(mapping, blueprint, policy), blueprint.constraints.questionCount;
    EligibleCount(mapping, blueprint, policy);
    ReadyPlanMeaning(mapping, blueprint, policy);
    var selected :| FeasibleOfSize(p, selected, n) && Presents(plan, p, selected);
    PresentedSizes(plan, p, selected, n);
  }

  lemma EligibleCount(mapping: Mapping, blueprint: Blueprint, policy: PlanningPolicy)
    requires MappingModel(mapping)
    ensures var p := PlanningProblem(mapping, blueprint, policy);
            p.budget == blueprint.constraints.targetTotalMinutes && p.policy == policy && |p.scored| == |Eligible(mapping, blueprint, policy)|
  {
    hide PlanningProblem, Eligible;
    CandidatesAreEligible(mapping, blueprint, policy);
  }

  lemma PresentedSizes(plan: Plan, p: Problem, selected: seq<nat>, n: nat)
    requires FeasibleOfSize(p, selected, n) && Presents(plan, p, selected)
    ensures |plan.selectedIds| == n <= |p.scored| && plan.totalMinutes <= p.budget
    ensures |plan.reserveIds| == Min(p.policy.maxReserve, |p.scored| - n)
  {
    hide Compatible, Minutes, Reserve;
    FeasibleNeedsCandidates(p, n);
  }

  lemma ReadyPlanFields(mapping: Mapping, blueprint: Blueprint, policy: PlanningPolicy)
    requires PlanCandidates(mapping, blueprint, policy).status == Ready
    ensures var plan := PlanCandidates(mapping, blueprint, policy);
            && plan.submissionId == mapping.submissionId && plan.questionCount == blueprint.constraints.questionCount
            && plan.blueprintId == blueprint.blueprintId && plan.version == blueprint.version && plan.diagnostics == []
            && plan.seed == ReadySeed(mapping.submissionId, blueprint.blueprintId, blueprint.version, plan.selectedIds, plan.reserveIds)
  {
    hide Select, Reserve, ValidCandidates, MinutesOf, SortedSet, OpportunityEvidence, Take, Items, IdsOf;
  }

  lemma {:induction false} DiagnosticEvidenceMembers(ds: seq<Diagnostic>)
    ensures forall e :: e in DiagnosticEvidence(ds) <==> exists d :: d in ds && e in d.evidenceIds
  {
    if ds != [] {
      DiagnosticEvidenceMembers(ds[1..]);
      assert forall d :: d in ds <==> d == ds[0] || d in ds[1..];
    }
  }

  /** The mappings that cannot be planned raise one error; one that reports its own
      failure gives that failure, with the evidence its diagnostics name. */
  lemma MappingFailureIsPassedOn(mapping: Mapping, blueprint: Blueprint, policy: PlanningPolicy)
    ensures var r := BuildPlan(mapping, blueprint, policy);
            && (r.Ok? <==>
                  mapping.submissionId != ""
                  && mapping.status in {Ready, InsufficientRelevantEvidence, InsufficientDistinctOpportunities, EvidenceMappingUncertain})
            && (r.Err? ==> r.error == MappingNotPlannable)
            && (r.Ok? && mapping.status != Ready ==>
                  && r.value.status == mapping.status && r.value.submissionId == mapping.submissionId
                  && r.value.selectedIds == r.value.reserveIds == [] && |r.value.diagnostics| == 1
                  && var d := r.value.diagnostics[0];
                     d.code == OfStatus(mapping.status) && d.details == MappingStatus(mapping.status)
                     && d.severity == Error && !d.retryable
                     && NoDup(d.evidenceIds) && (forall i, j :: 0 <= i < j < |d.evidenceIds| ==> Precedes(d.evidenceIds[i], d.evidenceIds[j]))
                     && (forall e :: e in d.evidenceIds ==> exists x :: x in mapping.diagnostics && e in x.evidenceIds)
                     && (|d.evidenceIds| < 100 ==> forall x, e :: x in mapping.diagnostics && e in x.evidenceIds ==> e in d.evidenceIds))
  {
    hide PlanCandidates, SortedSet, DiagnosticEvidence, Take, NoDup, Precedes;
    FirstHundred(DiagnosticEvidence(mapping.diagnostics));
    DiagnosticEvidenceMembers(mapping.diagnostics);
  }

  /** A sorted set of strings cut at a hundred: strictly ascending, and complete below
      the limit. */
  lemma FirstHundred(evidence: seq<string>)
    ensures var ids := Take(SortedSet(evidence), 100);
            NoDup(ids) && |ids| <= 100
            && (forall i, j :: 0 <= i < j < |ids| ==> Precedes(ids[i], ids[j]))
            && (forall e :: e in ids ==> e in evidence)
            && (|ids| < 100 ==> forall e :: e in evidence ==> e in ids)
  {
    hide StringLeq, Precedes;
    var all := SortedSet(evidence);
    StringOrder();
    SortBySorted(StringLeq, Distinct(evidence));
    PermutationNoDup(Distinct(evidence), all);
    SortedSetForgetsOrder(evidence, evidence);
    var ids := Take(all, 100);
    forall i, j | 0 <= i < j < |ids| ensures Precedes(ids[i], ids[j]) {
      assert StringLeq(all[i], all[j]) && all[i] != all[j];
      StringLeqMeans(ids[i], ids[j]);
    }
  }

  /** If no beam that matters can overflow, the planner answers READY exactly when some
      acceptable selection exists, and then it plans the best one. */
  lemma PlanIsExact(mapping: Mapping, blueprint: Blueprint, policy: PlanningPolicy)
    requires MappingModel(mapping) && blueprint.constraints.questionCount >= 1
    requires NeverOverflows(PlanningProblem(mapping, blueprint, policy), blueprint.constraints.questionCount, blueprint.constraints.mode, BEAM_WIDTH)
    ensures var plan, p := PlanCandidates(mapping, blueprint, policy), PlanningProblem(mapping, blueprint, policy);
            var n, mode := blueprint.constraints.questionCount, blueprint.constraints.mode;
            (plan.status == Ready <==> exists t :: Acceptable(p, n, mode, t))
            && (plan.status == Ready ==> exists s :: Best(p, n, mode, s) && plan.selectedIds == SafeIds(p, s))
  {
    hide ValidCandidates, SortedSet, OpportunityEvidence, Reserve, MinutesOf, Best, MeetsMode, NeverOverflows;
    var n, mode := blueprint.constraints.questionCount, blueprint.constraints.mode;
    var p := PlanningProblem(mapping, blueprint, policy);
    ExactWithoutOverflow(p, n, mode, BEAM_WIDTH);
    FeasibleNeedsCandidates(p, n);
    var found := Select(p, n, mode, BEAM_WIDTH);
    if found.Some? {
      SelectIsSound(p, n, mode, BEAM_WIDTH);
      assert Acceptable(p, n, mode, found.value.selected);
    }
  }

  /** Ten candidates are few enough for every question count and budget. */
  lemma PlanIsExactUpToTen(mapping: Mapping, blueprint: Blueprint, policy: PlanningPolicy)
    requires MappingModel(mapping) && blueprint.constraints.questionCount >= 1
    requires |ValidCandidates(mapping, blueprint, policy)| <= 10
    ensures PlanCandidates(mapping, blueprint, policy).status == Ready <==>
              exists t :: Acceptable(PlanningProblem(mapping, blueprint, policy), blueprint.constraints.questionCount, blueprint.constraints.mode, t)
  {
    hide PlanCandidates, NeverOverflows, Acceptable, Best, ValidCandidates;
    TenNeverOverflow(PlanningProblem(mapping, blueprint, policy), blueprint.constraints.questionCount, blueprint.constraints.mode);
    PlanIsExact(mapping, blueprint, policy);
  }

  lemma FeasibleNeedsCandidates(p: Problem, n: nat)
    ensures forall t :: FeasibleOfSize(p, t, n) ==> n <= |p.scored|
  {
    forall t | FeasibleOfSize(p, t, n) ensures n <= |p.scored| {
      IncreasingFits(t, |p.scored|);
    }
  }

  lemma {:induction false} IncreasingFits(t: seq<nat>, n: nat)
    requires Increasing(t) && forall k :: 0 <= k < |t| ==> t[k] < n
    ensures |t| <= n
  {
    if t != [] {
      var last := |t| - 1;
      IncreasingFits(t[..last], t[last]);
    }
  }

  /** A reserve of one holds only the replacement that asks for justification. */
  lemma ReserveOfOne(p: Problem, selected: seq<nat>)
    requires UniqueIds(p) && InRange(p, selected) && p.policy.maxReserve <= 1
    requires true in Flags(p, selected) && true in RemainingFlags(p, selected)
    ensures forall o :: o in Reserve(p, selected) ==> o.justificationRequired
  {
    hide Outside, RankedOutside, ReplacesBefore, Fill, Leaders, Flags, RemainingFlags, UniqueIds;
    if p.policy.maxReserve == 1 {
      ReserveLeadsWithBest(p, selected, true);
      assert forall o :: o in Reserve(p, selected) ==> o == Reserve(p, selected)[0];
    }
  }

  /** Under SELECTED a READY plan asks for justification, and a
      justification class of its primaries has a replacement in the reserve
      exactly when the reserve has room for it: one entry for the class that asks
      for justification, two for the class that does not. */
  lemma ReadyPlanKeepsJustification(mapping: Mapping, blueprint: Blueprint, policy: PlanningPolicy)
    requires MappingModel(mapping) && blueprint.constraints.mode == Selected
    requires PlanCandidates(mapping, blueprint, policy).status == Ready
    ensures var plan, p := PlanCandidates(mapping, blueprint, policy), PlanningProblem(mapping, blueprint, policy);
            exists selected :: Presents(plan, p, selected) && true in Flags(p, selected)
              && forall flag :: flag in Flags(p, selected) ==>
                   ((exists o :: o in Reserve(p, selected) && o.justificationRequired == flag)
                    <==> policy.maxReserve >= if flag then 1 else 2)
  {
    hide ValidCandidates, Reserve, Flags, RemainingFlags, PathScore, Outside, PlanCandidates, Presents, Minutes, Compatible;
    var plan, p := PlanCandidates(mapping, blueprint, policy), PlanningProblem(mapping, blueprint, policy);
    CandidateFacts(mapping, blueprint, policy);
    ReadyPlanMeaning(mapping, blueprint, policy);
    var selected :| FeasibleOfSize(p, selected, blueprint.constraints.questionCount) && MeetsMode(p, Selected, selected) && Presents(plan, p, selected);
    EmptyReserve(p, selected);
    forall flag | flag in Flags(p, selected)
      ensures (exists o :: o in Reserve(p, selected) && o.justificationRequired == flag)
              <==> policy.maxReserve >= if flag then 1 else 2
    {
      if policy.maxReserve >= if flag then 1 else 2 {
        ReserveLeadsWithBest(p, selected, flag);
      } else if policy.maxReserve == 1 {
        ReserveOfOne(p, selected);
      }
    }
    assert Presents(plan, p, selected);
  }

  lemma EmptyReserve(p: Problem, selected: seq<nat>)
    requires InRange(p, selected)
    ensures p.policy.maxReserve == 0 ==> Reserve(p, selected) == []
  {
  }
}
