/** The limit of the bounded search, with a planning input that shows it: enough
    long and attractive candidates crowd out the only selection that fits. */
module Truncation {
  import opened Orders
  import opened Results
  import opened Contracts
  import opened Text
  import opened Scoring
  import opened BeamSearch
  import opened SearchExactness
  import opened Planner
  import opened PlannerProperties
  import opened Validation
  import opened Acceptance
  import opened Deduplication

  /** Two candidates fit together; every other one fills the budget alone and
      outranks both; there are exactly `width` of those. */
  ghost predicate Crowded(p: Problem, width: nat, a: nat, b: nat) {
    && a < b < |p.scored| == width + 2
    && (forall i :: 0 <= i < |p.scored| ==> p.Item(i).targetMinutes >= 1)
    && (forall i :: 0 <= i < |p.scored| && i != a && i != b ==>
          p.Item(i).targetMinutes == p.budget
          && BaseScore(p.Item(i), p.policy) > BaseScore(p.Item(a), p.policy)
          && BaseScore(p.Item(i), p.policy) > BaseScore(p.Item(b), p.policy))
    && p.Item(a).targetMinutes + p.Item(b).targetMinutes <= p.budget
    && Compatible(p, a, b)
  }

  lemma SingleState(p: Problem, i: nat)
    requires i < |p.scored|
    ensures StateOf(p, [i]) == State([i], BaseScore(p.Item(i), p.policy), p.Item(i).targetMinutes)
    ensures p.Item(i).targetMinutes <= p.budget ==> FeasibleOfSize(p, [i], 1)
  {
    hide BaseScore;
    var o := p.Item(i);
    assert Items(p, [i]) == [o] && [o][..0] == [] && [] + [i] == [i];
    ItemsExtend(p, [], i);
    FirstMarginal(o, p.policy);
    assert PathScore([], p.policy) == 0.0 && PathScore([o], p.policy) == 0.0 + MarginalScore(o, [], p.policy);
  }

  lemma FirstMarginal(o: Opportunity, policy: PlanningPolicy)
    ensures MarginalScore(o, [], policy) == BaseScore(o, policy)
  {
    MarginalIsBaseLessPenalties(o, [], policy);
  }

  lemma PairFits(p: Problem, width: nat, a: nat, b: nat)
    requires Crowded(p, width, a, b)
    ensures FeasibleOfSize(p, [a, b], 2)
  {
    hide BaseScore, Overlap;
    ItemsExtend(p, [a], b);
    ItemsExtend(p, [], a);
    assert [] + [a] == [a] && [a] + [b] == [a, b];
  }

  /** At depth one every candidate is on the frontier. */
  lemma FrontierHoldsAll(p: Problem, width: nat, a: nat, b: nat)
    requires Crowded(p, width, a, b)
    ensures AllInRange(p, [ROOT])
    ensures var f := Frontier(p, [ROOT]);
            |f| >= width + 2 && Distinguished(f) && Sorted(Rank(p), f)
            && forall s :: s in f ==> exists i :: 0 <= i < |p.scored| && s == StateOf(p, [i])
  {
    hide StateOf, Compatible, Expand, BaseScore, RankLeq;
    assert Beam(p, 1, 0) == [ROOT];
    BeamExhaustive(p, 1, 0);
    NextExhaustive(p, [ROOT], 0, 1);
    NextSound(p, 1, [ROOT], 0);
    NextDistinguished(p, 1, [ROOT], 0);
    RankOrder(p);
    SortBySorted(Rank(p), Expand(p, [ROOT]));
    var f := Frontier(p, [ROOT]);
    forall s | s in f ensures exists i :: 0 <= i < |p.scored| && s == StateOf(p, [i]) {
      assert Sound(p, s, 1);
      assert s.selected == [s.selected[0]];
    }
    var all, found := seq(|p.scored|, i => [i]), Selections(f);
    forall x | x in Elems(all) ensures x in Elems(found) {
      var i :| 0 <= i < |all| && all[i] == x;
      SingleFeasible(p, width, a, b, i);
      StateOnFrontier(p, f, i);
    }
    assert forall i, j :: 0 <= i < j < |all| ==> all[i][0] != all[j][0];
    ElemsSize(all);
    ElemsSize(found);
    SubsetSize(Elems(all), Elems(found));
  }

  lemma SingleFeasible(p: Problem, width: nat, a: nat, b: nat, i: nat)
    requires Crowded(p, width, a, b) && i < |p.scored|
    ensures FeasibleOfSize(p, [i], 1)
  {
    SingleState(p, i);
  }

  lemma StateOnFrontier(p: Problem, f: seq<State>, i: nat)
    requires i < |p.scored| && StateOf(p, [i]) in f
    ensures [i] in Selections(f)
  {
    hide PathScore;
    var k :| 0 <= k < |f| && f[k] == StateOf(p, [i]);
    assert Selections(f)[k] == [i];
  }

  /** The kept states are all of the crowd. */
  lemma CrowdIsKept(p: Problem, width: nat, a: nat, b: nat, j: nat)
    requires Crowded(p, width, a, b) && j < width
    ensures AllInRange(p, [ROOT]) && j < |Frontier(p, [ROOT])|
    ensures var s := Frontier(p, [ROOT])[j];
            exists i :: 0 <= i < |p.scored| && i != a && i != b && s == StateOf(p, [i])
  {
    hide StateOf, Frontier, BaseScore, Compatible;
    FrontierHoldsAll(p, width, a, b);
    var f := Frontier(p, [ROOT]);
    assert f[j] in f && f[width] in f && f[width+1] in f;
    var i :| 0 <= i < |p.scored| && f[j] == StateOf(p, [i]);
    var k :| 0 <= k < |p.scored| && f[width] == StateOf(p, [k]);
    var l :| 0 <= l < |p.scored| && f[width+1] == StateOf(p, [l]);
    SingleState(p, i);
    SingleState(p, k);
    SingleState(p, l);
    assert Rank(p)(f[j], f[width]) && Rank(p)(f[j], f[width+1]);
    assert i != k && i != l && k != l;
  }

  /** A crowded problem has a feasible pair that the search does not find. */
  lemma CrowdedOut(p: Problem, width: nat, a: nat, b: nat, mode: JustificationMode)
    requires Crowded(p, width, a, b)
    ensures FeasibleOfSize(p, [a, b], 2) && Select(p, 2, mode, width).None?
  {
    PairFits(p, width, a, b);
    var first := Beam(p, width, 1);
    assert Beam(p, width, 0) == [ROOT] && first == Next(p, width, [ROOT]);
    hide StateOf, Frontier, Compatible, BaseScore;
    forall s | s in first ensures s.minutes >= p.budget && |s.selected| == 1 {
      var j :| 0 <= j < |first| && first[j] == s;
      CrowdIsKept(p, width, a, b, j);
      var i :| 0 <= i < |p.scored| && i != a && i != b && s == StateOf(p, [i]);
      SingleState(p, i);
    }
    NoRoomLeft(p, first);
    NothingFound(p, width, mode);
  }

  lemma SomeMember<T>(s: seq<T>) returns (x: T)
    requires s != []
    ensures x in s
  {
    x := s[0];
  }

  lemma NoRoomLeft(p: Problem, beam: seq<State>)
    requires AllInRange(p, beam) && forall s :: s in beam ==> s.minutes >= p.budget
    requires forall i :: 0 <= i < |p.scored| ==> p.Item(i).targetMinutes >= 1
    ensures Expand(p, beam) == []
  {
    hide Compatible;
    ExpandMembers(p, beam);
    assert forall s, i: nat :: s in beam && i < |p.scored| ==> !Admits(p, s, i);
    if Expand(p, beam) != [] {
      var t := SomeMember(Expand(p, beam));
    }
  }

  lemma NothingFound(p: Problem, width: nat, mode: JustificationMode)
    requires Expand(p, Beam(p, width, 1)) == []
    ensures Select(p, 2, mode, width).None?
  {
    hide Expand;
    assert Beam(p, width, 2) == Next(p, width, Beam(p, width, 1));
  }

  // ---- An activity, a submission and an evidence map ----

  const LONG_TEMPLATE := Template("template-long", "EXPLAIN_MECHANISM", "focus", "observable", "MEDIUM", 60,
                                  ["SINGLE_FRAGMENT"], ["OPEN_SHORT"], false)
  const SHORT_TEMPLATE := Template("template-short", "EXPLAIN_MECHANISM", "focus", "observable", "MEDIUM", 3,
                                   ["SINGLE_FRAGMENT"], ["OPEN_SHORT"], false)
  const REQUIREMENT := Requirement(["PARAGRAPH"], 1, 0.75, 0.65, false)
  const LONG_VARIANT := Variant("variant-long", REQUIREMENT, ["EXPLAIN_MECHANISM"], [LONG_TEMPLATE])
  const SHORT_VARIANT := Variant("variant-short", REQUIREMENT, ["EXPLAIN_MECHANISM"], [SHORT_TEMPLATE])
  const LONG_DIMENSION := Dimension("dimension-long", ["criterion"], 1.0, [LONG_VARIANT])
  const SHORT_DIMENSION := Dimension("dimension-short", ["criterion"], 0.8, [SHORT_VARIANT])

  /** Two questions within an hour. */
  const PAIR_BLUEPRINT := Blueprint("blueprint", 1, [LONG_DIMENSION, SHORT_DIMENSION], Constraints(2, 60, ["OPEN_SHORT"], NotRequired))

  /** The defaults of the planning policy. */
  const DEFAULT_POLICY := PlanningPolicy(0.75, 0.7, 0.35, 0.35, 0.30, 0.08, 0.12, 0.15, 0.5, 3)

  function UnitId(k: nat): string { "unit-" + Decimal(k) }

  function Unit(k: nat): EvidenceUnit {
    EvidenceUnit(UnitId(k), "tenant", Some("submission"), "artifact", true, "PARAGRAPH", 1.0, "locator", Some("text"), false)
  }

  /** Identifiers of the units from `from` up to `to`. */
  function UnitRange(from: nat, to: nat): (ids: seq<string>)
    requires from <= to
    ensures |ids| == to - from && forall k :: 0 <= k < |ids| ==> ids[k] == UnitId(from + k)
  {
    seq(to - from, k requires 0 <= k < to - from => UnitId(from + k))
  }

  function Units(n: nat): (units: seq<EvidenceUnit>)
    ensures |units| == n && forall k :: 0 <= k < n ==> units[k] == Unit(k)
  {
    seq(n, k requires 0 <= k < n => Unit(k))
  }

  function FiftyUnits(): Bundle {
    Bundle("tenant", "submission", Closed, UnitIds(Units(50)), Units(50), [])
  }

  function LongMatch(): VariantMatch { VariantMatch("dimension-long", "variant-long", UnitRange(0, 48), 1.0, 1.0) }

  function ShortMatch(): VariantMatch { VariantMatch("dimension-short", "variant-short", UnitRange(48, 50), 0.8, 1.0) }

  /** A long opportunity of top merit on two of the first 48 units: one of the
      first 16 and one of the other 32. */
  function Long(i: nat): Opportunity {
    Opportunity("long-" + Decimal(i), "template-long", "submission", "dimension-long", "variant-long",
                [UnitId(i % 16), UnitId(16 + i / 16)], "EXPLAIN_MECHANISM", "focus", "observable", "MEDIUM", 60,
                ["SINGLE_FRAGMENT"], ["OPEN_SHORT"], 1.0, 1.0, 1.0, false)
  }

  /** A short opportunity of lesser merit on one unit. */
  function Short(k: nat): Opportunity {
    Opportunity("short-" + Decimal(k), "template-short", "submission", "dimension-short", "variant-short",
                [UnitId(k)], "EXPLAIN_MECHANISM", "focus", "observable", "MEDIUM", 3,
                ["SINGLE_FRAGMENT"], ["OPEN_SHORT"], 0.8, 0.8, 0.8, false)
  }

  function Longs(n: nat): (os: seq<Opportunity>)
    ensures |os| == n && forall i :: 0 <= i < n ==> os[i] == Long(i)
  {
    seq(n, i requires 0 <= i < n => Long(i))
  }

  /** 512 long opportunities and two short ones. */
  function CrowdedMapping(): Mapping {
    Mapping("submission", Ready, [], [LongMatch(), ShortMatch()], Longs(BEAM_WIDTH) + [Short(48), Short(49)], [])
  }

  lemma UnitIdsDiffer(i: nat, j: nat)
    requires UnitId(i) == UnitId(j)
    ensures i == j
  {
    assert UnitId(i)[5..] == Decimal(i) && UnitId(j)[5..] == Decimal(j);
    DecimalInjective(i, j);
  }

  lemma LongIdsDiffer(i: nat, j: nat)
    requires Long(i).opportunityId == Long(j).opportunityId
    ensures i == j
  {
    assert Long(i).opportunityId[5..] == Decimal(i) && Long(j).opportunityId[5..] == Decimal(j);
    DecimalInjective(i, j);
  }

  lemma ShortIdsDiffer(i: nat, j: nat)
    requires Short(i).opportunityId == Short(j).opportunityId
    ensures i == j
  {
    assert Short(i).opportunityId[6..] == Decimal(i) && Short(j).opportunityId[6..] == Decimal(j);
    DecimalInjective(i, j);
  }

  lemma KindsDiffer(i: nat, j: nat)
    ensures Long(i).opportunityId != Short(j).opportunityId
  {
    assert Long(i).opportunityId[0] == 'l' && Short(j).opportunityId[0] == 's';
  }

  lemma CrowdedMappingIsValid()
    ensures MappingModel(CrowdedMapping()) && InputBounds(PAIR_BLUEPRINT, DEFAULT_POLICY)
  {
    var os := CrowdedMapping().opportunities;
    hide Long, Short, LongMatch, ShortMatch;
    forall i, j | 0 <= i < j < |os| ensures IdsOf(os)[i] != IdsOf(os)[j] {
      KindsDiffer(i, 48);
      KindsDiffer(i, 49);
      if j < BEAM_WIDTH && IdsOf(os)[i] == IdsOf(os)[j] {
        LongIdsDiffer(i, j);
      }
      if i >= BEAM_WIDTH && IdsOf(os)[i] == IdsOf(os)[j] {
        ShortIdsDiffer(48, 49);
      }
    }
    forall o | o in os ensures o.submissionId == "submission" {
      MemberKinds(o);
      SubmissionOf(o);
    }
  }

  lemma MemberKinds(o: Opportunity)
    requires o in CrowdedMapping().opportunities
    ensures o == Short(48) || o == Short(49) || exists i: nat :: i < BEAM_WIDTH && o == Long(i)
  {
    hide Long, Short, LongMatch, ShortMatch;
    var os := CrowdedMapping().opportunities;
    var i :| 0 <= i < |os| && os[i] == o;
    if i < BEAM_WIDTH {
      assert o == Long(i);
    }
  }

  lemma SubmissionOf(o: Opportunity)
    requires o == Short(48) || o == Short(49) || exists i: nat :: i < BEAM_WIDTH && o == Long(i)
    ensures o.submissionId == "submission"
  {
  }

  // ---- The validator accepts the map, and deduplication leaves it alone ----

  lemma PairBlueprintIsUnique()
    ensures UniqueBlueprint(PAIR_BLUEPRINT)
  {
    var ds := PAIR_BLUEPRINT.dimensions;
    assert ds[1..] == [SHORT_DIMENSION] && ds[1..][1..] == [];
    assert LONG_DIMENSION.variants[1..] == [] && SHORT_DIMENSION.variants[1..] == [];
    assert LONG_VARIANT.templates[1..] == [] && SHORT_VARIANT.templates[1..] == [];
    OneVariant(LONG_DIMENSION, LONG_VARIANT, LONG_TEMPLATE);
    OneVariant(SHORT_DIMENSION, SHORT_VARIANT, SHORT_TEMPLATE);
    assert ds[0] == LONG_DIMENSION && ds[1..][0] == SHORT_DIMENSION;
    assert AllVariantIds(ds) == ["variant-long"] + (["variant-short"] + AllVariantIds([]));
    assert AllTemplateIds(ds) == ["template-long"] + (["template-short"] + AllTemplateIds([]));
    assert AllVariantIds(ds) == ["variant-long", "variant-short"];
    assert AllTemplateIds(ds) == ["template-long", "template-short"];
    assert DimensionIds(ds) == ["dimension-long", "dimension-short"];
    assert |"variant-long"| == 12 && |"variant-short"| == 13 && |"template-long"| == 13 && |"template-short"| == 14;
    assert |"dimension-long"| == 14 && |"dimension-short"| == 15;
  }

  lemma OneVariant(d: Dimension, v: Variant, t: Template)
    requires d.variants == [v] && v.templates == [t]
    ensures VariantIds(d.variants) == [v.variantId] && VariantTemplateIds(d.variants) == [t.templateId]
  {
    assert [v][1..] == [] && [t][1..] == [];
    assert TemplateIds([t]) == [t.templateId] + TemplateIds([]);
  }

  lemma UnitsDiffer()
    ensures NoDup(UnitIds(Units(50)))
  {
    forall i, j | 0 <= i < j < 50 ensures UnitIds(Units(50))[i] != UnitIds(Units(50))[j] {
      if UnitId(i) == UnitId(j) {
        UnitIdsDiffer(i, j);
      }
    }
  }

  lemma FiftyUnitsInOrder()
    ensures ContextInOrder(FiftyUnits())
  {
    hide UnitId;
    var bundle := FiftyUnits();
    forall u | u in bundle.units ensures OwnUnit(bundle, u) {
      var k :| 0 <= k < 50 && bundle.units[k] == u;
    }
  }

  /** Evidence from the fifty units, repeated nowhere, meets the requirement. */
  lemma UnitsFit(ids: seq<string>, numbers: seq<nat>)
    requires |ids| == |numbers| >= 1 && forall k :: 0 <= k < |ids| ==> numbers[k] < 50 && ids[k] == UnitId(numbers[k])
    requires NoDup(numbers)
    ensures NoDup(ids) && Fits(ids, REQUIREMENT, FiftyUnits().units)
  {
    var units := FiftyUnits().units;
    forall id | id in ids
      ensures exists u :: u in units && u.evidenceId == id && u.modality in REQUIREMENT.modalities && u.confidence >= 0.75
    {
      var k :| 0 <= k < |ids| && ids[k] == id;
      assert units[numbers[k]] in units && units[numbers[k]].modality in REQUIREMENT.modalities;
    }
    forall i, j | 0 <= i < j < |ids| ensures ids[i] != ids[j] {
      if ids[i] == ids[j] {
        UnitIdsDiffer(numbers[i], numbers[j]);
      }
    }
    assert ids[0] in Elems(ids);
  }

  lemma RangeFits(from: nat, to: nat)
    requires from < to <= 50
    ensures NoDup(UnitRange(from, to)) && Fits(UnitRange(from, to), REQUIREMENT, FiftyUnits().units)
  {
    hide UnitId;
    UnitsFit(UnitRange(from, to), seq(to - from, k requires 0 <= k < to - from => from + k));
  }

  lemma MatchesFit()
    ensures MatchFits(LongMatch(), PAIR_BLUEPRINT, FiftyUnits()) && MatchFits(ShortMatch(), PAIR_BLUEPRINT, FiftyUnits())
    ensures NoDup(MatchPaths([LongMatch(), ShortMatch()]))
  {
    PathsOfPair();
    RangeFits(0, 48);
    RangeFits(48, 50);
    hide Fits, UnitRange, FiftyUnits, NoDup;
    assert OnPath(PAIR_BLUEPRINT, LONG_DIMENSION, LONG_VARIANT) && OnPath(PAIR_BLUEPRINT, SHORT_DIMENSION, SHORT_VARIANT);
    assert |MatchPath(LongMatch())| == 27 && |MatchPath(ShortMatch())| == 29;
    assert NoDup(MatchPaths([LongMatch(), ShortMatch()])) by {
      PathsDiffer([LongMatch(), ShortMatch()]);
    }
  }

  lemma PathsOfPair()
    ensures OnPath(PAIR_BLUEPRINT, LONG_DIMENSION, LONG_VARIANT) && OnPath(PAIR_BLUEPRINT, SHORT_DIMENSION, SHORT_VARIANT)
  {
    assert PAIR_BLUEPRINT.dimensions[0] == LONG_DIMENSION && PAIR_BLUEPRINT.dimensions[1] == SHORT_DIMENSION;
    assert LONG_DIMENSION.variants[0] == LONG_VARIANT && SHORT_DIMENSION.variants[0] == SHORT_VARIANT;
  }

  lemma PathsDiffer(matches: seq<VariantMatch>)
    requires |matches| == 2 && MatchPath(matches[0]) != MatchPath(matches[1])
    ensures NoDup(MatchPaths(matches))
  {
  }

  lemma LongFits(i: nat)
    requires i < BEAM_WIDTH
    ensures OpportunityFits(Long(i), CrowdedMapping(), PAIR_BLUEPRINT, FiftyUnits()) && NoDup(Long(i).evidenceIds)
  {
    var o := Long(i);
    PathsOfPair();
    UnitsFit(o.evidenceIds, [i % 16, 16 + i / 16]);
    var ids := UnitRange(0, 48);
    assert ids[i % 16] == UnitId(i % 16) && ids[16 + i / 16] == UnitId(16 + i / 16);
    assert LONG_VARIANT.templates[0] == LONG_TEMPLATE && LONG_VARIANT.operations[0] == o.operation;
    assert CrowdedMapping().matches[0] == LongMatch();
    hide Fits, UnitRange, FiftyUnits, NoDup, UnitId, Longs;
    assert DrawnFrom(o, LONG_DIMENSION, LONG_VARIANT, LONG_TEMPLATE, LongMatch());
  }

  lemma ShortFits(k: nat)
    requires 48 <= k < 50
    ensures OpportunityFits(Short(k), CrowdedMapping(), PAIR_BLUEPRINT, FiftyUnits()) && NoDup(Short(k).evidenceIds)
  {
    var o := Short(k);
    PathsOfPair();
    UnitsFit(o.evidenceIds, [k]);
    var ids := UnitRange(48, 50);
    assert ids[k - 48] == UnitId(k);
    assert SHORT_VARIANT.templates[0] == SHORT_TEMPLATE && SHORT_VARIANT.operations[0] == o.operation;
    assert CrowdedMapping().matches[1] == ShortMatch();
    hide Fits, UnitRange, FiftyUnits, NoDup, UnitId, Longs;
    assert DrawnFrom(o, SHORT_DIMENSION, SHORT_VARIANT, SHORT_TEMPLATE, ShortMatch());
  }

  lemma CrowdedMapIsAccepted()
    ensures CheckEvidenceMap(CrowdedMapping(), PAIR_BLUEPRINT, FiftyUnits()).Pass?
  {
    hide CheckEvidenceMap, OpportunityFits, MatchFits, ContextInOrder, Long, Short, LongMatch, ShortMatch, Longs, UnitIds, Units, UniqueBlueprint, MatchPaths;
    var m := CrowdedMapping();
    PairBlueprintIsUnique();
    UnitsDiffer();
    FiftyUnitsInOrder();
    MatchesFit();
    forall o | o in m.opportunities ensures OpportunityFits(o, m, PAIR_BLUEPRINT, FiftyUnits()) {
      MemberKinds(o);
      if i: nat :| i < BEAM_WIDTH && o == Long(i) {
        LongFits(i);
      } else {
        ShortFits(48);
        ShortFits(49);
      }
    }
    DistinctClaims(m.claims);
    DistinctPaths(m.matches);
    AcceptedIffItFitsTheBlueprint(m, PAIR_BLUEPRINT, FiftyUnits());
  }

  /** The evidence of a long opportunity tells which one it is. */
  lemma LongEvidenceDiffers(i: nat, j: nat)
    requires i < BEAM_WIDTH && j < BEAM_WIDTH && Evidence(Long(i)) == Evidence(Long(j))
    ensures i == j
  {
    assert Evidence(Long(i)) == {UnitId(i % 16), UnitId(16 + i / 16)} && Evidence(Long(j)) == {UnitId(j % 16), UnitId(16 + j / 16)};
    OneOf(i % 16, j % 16, 16 + j / 16);
    OneOf(16 + i / 16, j % 16, 16 + j / 16);
  }

  lemma OneOf(a: nat, b: nat, c: nat)
    requires UnitId(a) in {UnitId(b), UnitId(c)}
    ensures a == b || a == c
  {
    if UnitId(a) == UnitId(b) {
      UnitIdsDiffer(a, b);
    } else {
      UnitIdsDiffer(a, c);
    }
  }

  lemma ShortEvidenceDiffers(k: nat, o: Opportunity)
    requires 48 <= k < 50
    requires (exists i: nat :: i < BEAM_WIDTH && o == Long(i)) || (exists l: nat :: o == Short(l) && l != k)
    ensures Evidence(o) != Evidence(Short(k))
  {
    assert Evidence(Short(k)) == {UnitId(k)};
    if Evidence(o) == Evidence(Short(k)) {
      if i: nat :| i < BEAM_WIDTH && o == Long(i) {
        assert UnitId(i % 16) in Evidence(o);
        UnitIdsDiffer(i % 16, k);
      } else {
        var l: nat :| o == Short(l) && l != k;
        assert UnitId(l) in Evidence(o);
        UnitIdsDiffer(l, k);
      }
    }
  }

  lemma CrowdedMapIsDeduplicated()
    ensures Deduplicated(CrowdedMapping()) == CrowdedMapping()
  {
    hide Long, Short, LongMatch, ShortMatch, Signature, Evidence;
    var os := CrowdedMapping().opportunities;
    forall i, j | 0 <= i < j < |os| ensures Signature(os[i]) != Signature(os[j]) {
      MemberEvidenceIsDistinct(os[i]);
      MemberEvidenceIsDistinct(os[j]);
      SignatureIsSet(os[i], os[j]);
      if j < BEAM_WIDTH {
        assert os[i] == Long(i) && os[j] == Long(j);
        if Evidence(os[i]) == Evidence(os[j]) {
          LongEvidenceDiffers(i, j);
        }
      } else {
        assert os[j] == Short(j - BEAM_WIDTH + 48);
        assert i < BEAM_WIDTH ==> os[i] == Long(i);
        assert i >= BEAM_WIDTH ==> os[i] == Short(48) && j - BEAM_WIDTH + 48 == 49;
        ShortEvidenceDiffers(j - BEAM_WIDTH + 48, os[i]);
      }
    }
    NothingToDrop(os);
  }

  lemma MemberEvidenceIsDistinct(o: Opportunity)
    requires o in CrowdedMapping().opportunities
    ensures NoDup(o.evidenceIds)
  {
    hide Long, Short, LongMatch, ShortMatch, OpportunityFits;
    MemberKinds(o);
    if i: nat :| i < BEAM_WIDTH && o == Long(i) {
      LongFits(i);
    } else {
      ShortFits(48);
      ShortFits(49);
    }
  }

  // ---- The objects are within the bounds of their fields ----

  /** The pattern of identifiers. */
  predicate IsId(id: string) {
    3 <= |id| <= 128 && 'a' <= id[0] <= 'z'
    && forall i :: 0 <= i < |id| ==> 'a' <= id[i] <= 'z' || '0' <= id[i] <= '9' || id[i] in {'_', '-'}
  }

  predicate EvidenceBounds(ids: seq<string>) { 1 <= |ids| <= 50 && forall id :: id in ids ==> IsId(id) }

  predicate WithinFields(mapping: Mapping, bundle: Bundle) {
    && (forall o :: o in mapping.opportunities ==> IsId(o.opportunityId) && EvidenceBounds(o.evidenceIds))
    && (forall m :: m in mapping.matches ==> EvidenceBounds(m.evidenceIds))
    && 1 <= |bundle.units| <= 500 && forall u :: u in bundle.units ==> IsId(u.evidenceId)
  }

  lemma ShortNumeral(n: nat)
    requires n < 1000
    ensures |Decimal(n)| <= 3
  {
    if n >= 10 {
      assert |Decimal(n)| == |Decimal(n / 10)| + 1;
      if n / 10 >= 10 {
        assert |Decimal(n / 10)| == |Decimal(n / 10 / 10)| + 1;
      }
    }
  }

  lemma NumberedId(prefix: string, n: nat)
    requires 5 <= |prefix| <= 6 && n < 1000 && 'a' <= prefix[0] <= 'z'
    requires forall i :: 0 <= i < |prefix| ==> 'a' <= prefix[i] <= 'z' || prefix[i] == '-'
    ensures IsId(prefix + Decimal(n))
  {
    ShortNumeral(n);
    hide Decimal;
  }

  lemma CrowdedMapIsWithinFields()
    ensures WithinFields(CrowdedMapping(), FiftyUnits())
  {
    hide IsId, Decimal;
    var m := CrowdedMapping();
    forall k: nat | k < 50 ensures IsId(UnitId(k)) {
      NumberedId("unit-", k);
    }
    forall o | o in m.opportunities ensures IsId(o.opportunityId) && EvidenceBounds(o.evidenceIds) {
      MemberKinds(o);
      NumberedId("short-", 48);
      NumberedId("short-", 49);
      if i: nat :| i < BEAM_WIDTH && o == Long(i) {
        NumberedId("long-", i);
      }
    }
    RangeBounds(0, 48);
    RangeBounds(48, 50);
  }

  lemma RangeBounds(from: nat, to: nat)
    requires from < to <= 50 && forall k: nat :: k < 50 ==> IsId(UnitId(k))
    ensures EvidenceBounds(UnitRange(from, to))
  {
    hide IsId, UnitId;
  }

  // ---- The planner's view of it ----

  lemma LongFacts(i: nat)
    ensures IsCandidate(Long(i), PAIR_BLUEPRINT.constraints, DEFAULT_POLICY) && BaseScore(Long(i), DEFAULT_POLICY) == 1.0
    ensures Long(i).targetMinutes == 60
  {
    assert "OPEN_SHORT" in Long(i).responseFormats;
  }

  lemma ShortFacts(k: nat)
    ensures IsCandidate(Short(k), PAIR_BLUEPRINT.constraints, DEFAULT_POLICY) && BaseScore(Short(k), DEFAULT_POLICY) == 0.8
    ensures Short(k).targetMinutes == 3
  {
    assert "OPEN_SHORT" in Short(k).responseFormats;
  }

  lemma ShortsDoNotOverlap(a: nat, b: nat)
    requires a != b
    ensures Overlap(Short(a), Short(b)) == 0.0
  {
    assert Evidence(Short(a)) == {UnitId(a)} && Evidence(Short(b)) == {UnitId(b)};
    if UnitId(a) == UnitId(b) {
      UnitIdsDiffer(a, b);
    }
    assert {UnitId(a)} * {UnitId(b)} == {};
  }

  lemma {:induction false} AllKept(os: seq<Opportunity>, c: Constraints, policy: PlanningPolicy)
    requires forall o :: o in os ==> IsCandidate(o, c, policy)
    ensures |Filtered(os, c, policy)| == |os|
  {
    hide IsCandidate, BaseScore;
    if os != [] {
      AllKept(os[1..], c, policy);
    }
  }

  lemma CrowdedMembers(o: Opportunity)
    requires o in CrowdedMapping().opportunities
    ensures o == Short(48) || o == Short(49) || (o.targetMinutes == 60 && BaseScore(o, DEFAULT_POLICY) == 1.0)
    ensures IsCandidate(o, PAIR_BLUEPRINT.constraints, DEFAULT_POLICY) && o.targetMinutes >= 1
  {
    hide Long, Short, BaseScore, IsCandidate, CrowdedMapping;
    MemberKinds(o);
    if i: nat :| i < BEAM_WIDTH && o == Long(i) {
      LongFacts(i);
    } else {
      ShortFacts(48);
      ShortFacts(49);
    }
  }

  lemma CrowdedFrom(p: Problem, k: nat, l: nat)
    requires k < l < |p.scored| == BEAM_WIDTH + 2 && p.budget == 60
    requires p.Item(k).targetMinutes == 3 == p.Item(l).targetMinutes
    requires BaseScore(p.Item(k), p.policy) == 0.8 == BaseScore(p.Item(l), p.policy)
    requires Overlap(p.Item(k), p.Item(l)) == 0.0 <= p.policy.maximumOverlap
    requires forall i :: 0 <= i < |p.scored| && i != k && i != l ==>
               p.Item(i).targetMinutes == 60 && BaseScore(p.Item(i), p.policy) == 1.0
    ensures Crowded(p, BEAM_WIDTH, k, l)
  {
    hide BaseScore, Overlap;
  }

  lemma ShortOnesAreThere()
    ensures var os := CrowdedMapping().opportunities;
            |os| == BEAM_WIDTH + 2 && Short(48) in os && Short(49) in os
  {
    hide Long, Short;
    var os := CrowdedMapping().opportunities;
    assert os[BEAM_WIDTH] == Short(48) && os[BEAM_WIDTH+1] == Short(49);
  }

  /** Every opportunity of the mapping is a candidate. */
  lemma CrowdedCandidates(p: Problem)
    requires p == PlanningProblem(CrowdedMapping(), PAIR_BLUEPRINT, DEFAULT_POLICY)
    ensures |p.scored| == BEAM_WIDTH + 2 && UniqueIds(p)
    ensures forall o :: o in CrowdedMapping().opportunities ==> Scored(o, BaseScore(o, DEFAULT_POLICY)) in p.scored
    ensures forall i :: 0 <= i < |p.scored| ==> p.Item(i) in CrowdedMapping().opportunities
  {
    CrowdedMappingIsValid();
    ShortOnesAreThere();
    hide IsCandidate, BaseScore, CrowdedMapping, Long, Short;
    var mapping := CrowdedMapping();
    CandidateFacts(mapping, PAIR_BLUEPRINT, DEFAULT_POLICY);
    forall o | o in mapping.opportunities ensures IsCandidate(o, PAIR_BLUEPRINT.constraints, DEFAULT_POLICY) {
      CrowdedMembers(o);
    }
    AllKept(mapping.opportunities, PAIR_BLUEPRINT.constraints, DEFAULT_POLICY);
    forall i | 0 <= i < |p.scored| ensures p.Item(i) in mapping.opportunities {
      assert p.scored[i] in p.scored;
    }
  }

  /** Where the two short opportunities end up among the candidates. */
  lemma ShortOnesAt(p: Problem) returns (k: nat, l: nat)
    requires p == PlanningProblem(CrowdedMapping(), PAIR_BLUEPRINT, DEFAULT_POLICY)
    ensures |p.scored| == BEAM_WIDTH + 2
    ensures k < |p.scored| && p.Item(k) == Short(48)
    ensures l < |p.scored| && p.Item(l) == Short(49)
    ensures forall i :: 0 <= i < |p.scored| && i != k && i != l ==>
              p.Item(i).targetMinutes == 60 && BaseScore(p.Item(i), DEFAULT_POLICY) == 1.0
  {
    hide PlanningProblem, BaseScore, CrowdedMapping, Long, Short, IsCandidate;
    ShortOnesAreThere();
    CrowdedCandidates(p);
    k := ScoredIndex(p, Scored(Short(48), BaseScore(Short(48), DEFAULT_POLICY)));
    l := ScoredIndex(p, Scored(Short(49), BaseScore(Short(49), DEFAULT_POLICY)));
    assert p.Item(k) == Short(48) && p.Item(l) == Short(49);
    forall i | 0 <= i < |p.scored| && i != k && i != l
      ensures p.Item(i).targetMinutes == 60 && BaseScore(p.Item(i), DEFAULT_POLICY) == 1.0
    {
      CrowdedMembers(p.Item(i));
      assert p.Item(i).opportunityId != p.Item(k).opportunityId;
      assert p.Item(i).opportunityId != p.Item(l).opportunityId;
    }
  }

  lemma ScoredIndex(p: Problem, s: Scored) returns (k: nat)
    requires s in p.scored
    ensures k < |p.scored| && p.scored[k] == s
  {
    k :| 0 <= k < |p.scored| && p.scored[k] == s;
  }

  lemma CrowdedProblem() returns (a: nat, b: nat)
    ensures Crowded(PlanningProblem(CrowdedMapping(), PAIR_BLUEPRINT, DEFAULT_POLICY), BEAM_WIDTH, a, b)
  {
    hide CrowdedMapping, ValidCandidates, BaseScore, Overlap, Crowded, Long, Short;
    var p := PlanningProblem(CrowdedMapping(), PAIR_BLUEPRINT, DEFAULT_POLICY);
    var k, l := ShortOnesAt(p);
    ShortFacts(48);
    ShortFacts(49);
    ShortsDoNotOverlap(48, 49);
    ShortsDoNotOverlap(49, 48);
    if k == l {
      ShortIdsDiffer(48, 49);
    }
    if k < l {
      CrowdedFrom(p, k, l);
      a, b := k, l;
    } else {
      CrowdedFrom(p, l, k);
      a, b := l, k;
    }
  }

  lemma CrowdedOutcome(p: Problem)
    requires p == PlanningProblem(CrowdedMapping(), PAIR_BLUEPRINT, DEFAULT_POLICY)
    ensures |p.scored| >= 2 && Select(p, 2, NotRequired, BEAM_WIDTH).None?
    ensures exists t :: Acceptable(p, 2, NotRequired, t)
  {
    hide PlanningProblem, CrowdedMapping, Select, Feasible;
    var a, b := CrowdedProblem();
    CrowdedOut(p, BEAM_WIDTH, a, b, NotRequired);
    assert Acceptable(p, 2, NotRequired, [a, b]);
  }

  lemma CrowdedPlan()
    ensures PlanCandidates(CrowdedMapping(), PAIR_BLUEPRINT, DEFAULT_POLICY).status == AssessmentPlanInfeasible
    ensures exists t :: Acceptable(PlanningProblem(CrowdedMapping(), PAIR_BLUEPRINT, DEFAULT_POLICY), 2, NotRequired, t)
  {
    var m := CrowdedMapping();
    assert m.status == Ready && m.submissionId != "";
    OutcomesPartition(m, PAIR_BLUEPRINT, DEFAULT_POLICY);
    assert BuildPlan(m, PAIR_BLUEPRINT, DEFAULT_POLICY) == Ok(PlanCandidates(m, PAIR_BLUEPRINT, DEFAULT_POLICY)) by {
      hide PlanCandidates;
    }
    hide *;
    CrowdedOutcome(PlanningProblem(m, PAIR_BLUEPRINT, DEFAULT_POLICY));
  }

  /** `ASSESSMENT_PLAN_INFEASIBLE` does not prove infeasibility: the validator
      accepts this map, deduplication leaves it alone, and at the shipped width
      the planner gives that answer although an acceptable plan exists. */
  lemma InfeasibleAnswerCanBeWrong()
    ensures var m := CrowdedMapping();
            MappingModel(m) && InputBounds(PAIR_BLUEPRINT, DEFAULT_POLICY)
            && UniqueBlueprint(PAIR_BLUEPRINT) && NoDup(UnitIds(FiftyUnits().units)) && WithinFields(m, FiftyUnits())
            && CheckEvidenceMap(m, PAIR_BLUEPRINT, FiftyUnits()).Pass? && Deduplicated(m) == m
            && PlanCandidates(m, PAIR_BLUEPRINT, DEFAULT_POLICY).status == AssessmentPlanInfeasible
            && exists t :: Acceptable(PlanningProblem(m, PAIR_BLUEPRINT, DEFAULT_POLICY), 2, NotRequired, t)
  {
    CrowdedMappingIsValid();
    PairBlueprintIsUnique();
    UnitsDiffer();
    CrowdedMapIsAccepted();
    CrowdedMapIsDeduplicated();
    CrowdedMapIsWithinFields();
    CrowdedPlan();
    assert FiftyUnits().units == Units(50);
    hide *;
  }
}
