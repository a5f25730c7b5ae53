/** A two-question activity in which the model gives both candidates one
    identifier: every check before assembly accepts them, and the run fails. */
module RepeatedCandidates {
  import opened Orders
  import opened Results
  import opened Contracts
  import opened Scoring
  import opened BeamSearch
  import opened SearchExactness
  import opened Planner
  import opened PlannerProperties
  import opened Validation
  import opened Acceptance
  import opened QuestionValidation
  import opened Deduplication
  import opened Pipeline
  import opened Provenance
  import opened Run
  import opened Truncation
  import opened JustificationModes

  // ---- Two opportunities of one template, and a model that names candidates ----

  const TWO_BLUEPRINT := OneBlueprint(NotRequired, false).(constraints := Constraints(2, 6, ["OPEN_SHORT"], NotRequired))

  function NamedUnit(n: string): EvidenceUnit {
    EvidenceUnit("unit-" + n, "tenant", Some("submission"), "artifact", true, "PARAGRAPH", 1.0, "locator", Some("text"), false)
  }

  function TwoBundle(): Bundle {
    Bundle("tenant", "submission", Closed, ["unit-" + "1", "unit-" + "2"], [NamedUnit("1"), NamedUnit("2")], [])
  }

  function TwoMatch(): VariantMatch { VariantMatch("dimension-1", "variant-1", ["unit-" + "1", "unit-" + "2"], 1.0, 1.0) }

  function Named(n: string): Opportunity {
    Opportunity("opportunity-" + n, "template-1", "submission", "dimension-1", "variant-1", ["unit-" + n],
                "EXPLAIN_MECHANISM", "focus", "observable", "MEDIUM", 3, ["SINGLE_FRAGMENT"], ["OPEN_SHORT"], 1.0, 1.0, 1.0, false)
  }

  function TwoMapping(): Mapping { Mapping("submission", Ready, [], [TwoMatch()], [Named("1"), Named("2")], []) }

  /** One name for all candidates, or one for each opportunity. */
  function CandidateName(same: bool, o: Opportunity): string {
    if same then "candidate" else "candidate-" + o.opportunityId
  }

  /** The text of the first unit, literally. */
  function OwnFragments(o: Opportunity): seq<Fragment> {
    if o.evidenceIds == [] then [] else [Fragment(o.evidenceIds[0], "locator", Some("text"), "LITERAL")]
  }

  function NamedCandidate(same: bool, o: Opportunity): Candidate {
    Candidate(CandidateName(same, o), o.submissionId, o.opportunityId, o.templateId, o.dimensionId, o.variantId, o.operation,
              "OPEN_SHORT", o.difficulty, o.targetMinutes, "question", Anchor("SINGLE_FRAGMENT", OwnFragments(o)),
              o.evidenceIds, [], [], o.justificationRequired, GuideDraft([], []))
  }

  function NamedReview(same: bool, o: Opportunity): Review {
    Review(Ready, o.submissionId, o.opportunityId,
           Some(SemanticReview(CandidateName(same, o), true, [], 1.0, 1.0, 1.0, 1.0, 1.0, o.difficulty, o.targetMinutes, o.evidenceIds, [])), [])
  }

  function NamingServices(same: bool): Services {
    Services((o: Opportunity) => Generation(Ready, o.submissionId, o.opportunityId, Some(NamedCandidate(same, o)), []),
             (o: Opportunity, g) => NamedReview(same, o), text => Pass, (submission, candidate) => "question-" + candidate,
             ReviewPolicy(0.9, 0.8, 0.8, 0.85, 0.65))
  }

  function TwoRun(same: bool): Inputs {
    Inputs(TwoMapping(), TWO_BLUEPRINT, DEFAULT_POLICY, TwoBundle(), NamingServices(same), "assessment-1")
  }

  predicate OneOfTwo(o: Opportunity) { o == Named("1") || o == Named("2") }

  lemma NamesDiffer(prefix: string)
    ensures prefix + "1" != prefix + "2"
  {
    assert (prefix + "1")[|prefix|] == '1' && (prefix + "2")[|prefix|] == '2';
  }

  // ---- The map is accepted ----

  lemma TwoUnits()
    ensures NoDup(UnitIds(TwoBundle().units)) && ContextInOrder(TwoBundle())
    ensures NoDup(TwoMatch().evidenceIds) && Fits(TwoMatch().evidenceIds, REQUIREMENT, TwoBundle().units)
    ensures forall o :: OneOfTwo(o) ==> Fits(o.evidenceIds, REQUIREMENT, TwoBundle().units) && o.evidenceIds[0] in TwoMatch().evidenceIds
  {
    NamesDiffer("unit-");
    var units := TwoBundle().units;
    assert UnitIds(units) == ["unit-" + "1", "unit-" + "2"];
    assert units[0] == NamedUnit("1") && units[1] == NamedUnit("2");
    assert REQUIREMENT.modalities[0] == "PARAGRAPH";
    assert TwoMatch().evidenceIds[0] in Elems(TwoMatch().evidenceIds);
    forall o | OneOfTwo(o) ensures Fits(o.evidenceIds, REQUIREMENT, units) && o.evidenceIds[0] in TwoMatch().evidenceIds {
      assert o.evidenceIds[0] in Elems(o.evidenceIds);
      assert TwoMatch().evidenceIds[0] == "unit-" + "1" && TwoMatch().evidenceIds[1] == "unit-" + "2";
    }
  }

  lemma TwoOnPath()
    ensures OnPath(TWO_BLUEPRINT, OneDimension(false), TheVariant(false)) && UniqueBlueprint(TWO_BLUEPRINT)
  {
    OneBlueprintIsUnique(NotRequired, false);
    assert TWO_BLUEPRINT.dimensions == OneBlueprint(NotRequired, false).dimensions;
    assert TWO_BLUEPRINT.dimensions[0] == OneDimension(false) && OneDimension(false).variants[0] == TheVariant(false);
  }

  lemma TwoFit(o: Opportunity)
    requires OneOfTwo(o)
    ensures OpportunityFits(o, TwoMapping(), TWO_BLUEPRINT, TwoBundle())
  {
    TwoUnits();
    TwoOnPath();
    var d, v, t, m := OneDimension(false), TheVariant(false), OneTemplate(false), TwoMatch();
    assert v.templates[0] == t && v.operations[0] == t.operation && TwoMapping().matches[0] == m;
    assert DrawnFrom(o, d, v, t, m);
    hide Fits, OnPath, DrawnFrom;
  }

  lemma TwoModels()
    ensures MappingModel(TwoMapping()) && InputBounds(TWO_BLUEPRINT, DEFAULT_POLICY)
    ensures NoDup(MatchPaths(TwoMapping().matches)) && TwoMapping().matches == [TwoMatch()] && TwoMapping().claims == []
  {
    hide TwoMatch, NamedUnit;
    NamesDiffer("opportunity-");
    assert IdsOf(TwoMapping().opportunities) == ["opportunity-" + "1", "opportunity-" + "2"];
  }

  lemma TwoMatchFits()
    ensures MatchFits(TwoMatch(), TWO_BLUEPRINT, TwoBundle())
  {
    TwoUnits();
    TwoOnPath();
    hide Fits, OnPath, NoDup, TwoBundle;
    assert TheVariant(false).requirement == REQUIREMENT;
  }

  lemma TwoParts()
    ensures var m := TwoMapping();
            m.status == Ready && m.submissionId == TwoBundle().submissionId && m.submissionId != ""
            && m.opportunities == [Named("1"), Named("2")] && forall o :: o in m.opportunities <==> OneOfTwo(o)
  {
    hide TwoMatch, NamedUnit, Named;
  }

  lemma TwoMapIsAccepted()
    ensures MappingModel(TwoMapping()) && InputBounds(TWO_BLUEPRINT, DEFAULT_POLICY)
    ensures CheckEvidenceMap(TwoMapping(), TWO_BLUEPRINT, TwoBundle()).Pass?
  {
    TwoNoClaims();
    hide *;
    TwoModels();
    TwoUnits();
    TwoOnPath();
    TwoParts();
    TwoMatchFits();
    var m := TwoMapping();
    forall o | o in m.opportunities ensures OpportunityFits(o, m, TWO_BLUEPRINT, TwoBundle()) {
      TwoFit(o);
    }
    AcceptedIffItFitsTheBlueprint(m, TWO_BLUEPRINT, TwoBundle());
  }

  lemma TwoNoClaims()
    ensures NoDup(ClaimIds([]))
  {
  }

  lemma TwoMapIsDeduplicated()
    ensures Deduplicated(TwoMapping()) == TwoMapping()
  {
    hide Signature, Named, TwoMatch, Evidence, Firsts;
    var x, y := Named("1"), Named("2");
    TwoSignatures();
    assert DistinctSignatures([x, y]);
    NothingToDrop([x, y]);
  }

  lemma TwoSignatures()
    ensures Signature(Named("1")) != Signature(Named("2"))
  {
    hide Signature;
    NamesDiffer("unit-");
    NamedEvidence("1");
    NamedEvidence("2");
    SignatureIsSet(Named("1"), Named("2"));
    assert "unit-" + "1" in Evidence(Named("1"));
  }

  lemma NamedEvidence(n: string)
    ensures Evidence(Named(n)) == {"unit-" + n} && NoDup(Named(n).evidenceIds)
  {
  }

  // ---- The plan takes both ----

  lemma NamedIsCandidate(o: Opportunity)
    requires OneOfTwo(o)
    ensures IsCandidate(o, TWO_BLUEPRINT.constraints, DEFAULT_POLICY)
  {
    assert o.responseFormats[0] == "OPEN_SHORT";
    assert TWO_BLUEPRINT.constraints.responseFormats == ["OPEN_SHORT"];
    assert "OPEN_SHORT" in o.responseFormats && "OPEN_SHORT" in TWO_BLUEPRINT.constraints.responseFormats;
  }

  lemma TwoCandidates()
    ensures var p := PlanningProblem(TwoMapping(), TWO_BLUEPRINT, DEFAULT_POLICY);
            |p.scored| == 2 && p.budget == 6 && p.policy == DEFAULT_POLICY
            && OneOfTwo(p.Item(0)) && OneOfTwo(p.Item(1)) && p.Item(0).opportunityId != p.Item(1).opportunityId
  {
    hide IsCandidate, BaseScore, Filtered, MappingModel, CheckEvidenceMap, TwoMapping, OneOfTwo, NoDup;
    TwoModels();
    TwoMappingIds();
    TwoParts();
    var m := TwoMapping();
    var p := PlanningProblem(m, TWO_BLUEPRINT, DEFAULT_POLICY);
    forall o | o in m.opportunities ensures IsCandidate(o, TWO_BLUEPRINT.constraints, DEFAULT_POLICY) {
      NamedIsCandidate(o);
    }
    AllKept(m.opportunities, TWO_BLUEPRINT.constraints, DEFAULT_POLICY);
    CandidateFacts(m, TWO_BLUEPRINT, DEFAULT_POLICY);
    assert p.scored[0] in p.scored && p.scored[1] in p.scored;
  }

  lemma TwoMappingIds()
    ensures NoDup(IdsOf(TwoMapping().opportunities))
  {
    TwoModels();
    hide TwoMapping, NoDup;
  }

  lemma TwoDoNotOverlap(x: Opportunity, y: Opportunity)
    requires OneOfTwo(x) && OneOfTwo(y) && x.opportunityId != y.opportunityId
    ensures Overlap(x, y) == 0.0
  {
    NamesDiffer("unit-");
    NamedEvidence("1");
    NamedEvidence("2");
    assert Evidence(x) * Evidence(y) == {};
  }

  lemma TwoAreFeasible(p: Problem)
    requires |p.scored| == 2 && p.budget == 6 && p.policy == DEFAULT_POLICY
    requires OneOfTwo(p.Item(0)) && OneOfTwo(p.Item(1)) && p.Item(0).opportunityId != p.Item(1).opportunityId
    ensures Acceptable(p, 2, NotRequired, [0, 1])
    ensures forall selected :: FeasibleOfSize(p, selected, 2) ==> selected == [0, 1]
  {
    TwoDoNotOverlap(p.Item(0), p.Item(1));
    TwoMinutes(p);
    hide Overlap, Minutes, Named, OneOfTwo;
    forall selected | FeasibleOfSize(p, selected, 2) ensures selected == [0, 1] {
      assert selected[0] < selected[1] && selected[0] < 2 && selected[1] < 2;
    }
  }

  lemma TwoMinutes(p: Problem)
    requires |p.scored| == 2 && OneOfTwo(p.Item(0)) && OneOfTwo(p.Item(1))
    ensures Minutes(p, [0, 1]) == 6
  {
    ItemsExtend(p, [0], 1);
    ItemsExtend(p, [], 0);
    assert [] + [0] == [0] && [0] + [1] == [0, 1];
    hide Items;
  }

  /** The plan is READY and names both opportunities. */
  lemma TwoArePlanned()
    ensures var planned := BuildPlan(TwoMapping(), TWO_BLUEPRINT, DEFAULT_POLICY);
            planned.Ok? && planned.value.status == Ready && |planned.value.selectedIds| == 2
            && var ids, os := planned.value.selectedIds, OpportunitiesById(TwoMapping().opportunities);
               ids[0] != ids[1] && (forall id :: id in ids ==> id in os && OneOfTwo(os[id]))
  {
    var m := TwoMapping();
    var p, plan := PlanningProblem(m, TWO_BLUEPRINT, DEFAULT_POLICY), PlanCandidates(m, TWO_BLUEPRINT, DEFAULT_POLICY);
    hide *;
    TwoModels();
    TwoCandidates();
    TwoAreFeasible(p);
    TwoConstraints();
    TwoParts();
    ReadyIsPlanned(m);
    PlanIsExactUpToTen(m, TWO_BLUEPRINT, DEFAULT_POLICY);
    ReadyPlanMeaning(m, TWO_BLUEPRINT, DEFAULT_POLICY);
    TwoPresented(p, plan);
    PlannedOpportunities(m, TWO_BLUEPRINT, DEFAULT_POLICY, [0, 1]);
    TwoNamed(p, plan.selectedIds, OpportunitiesById(m.opportunities));
  }

  lemma ReadyIsPlanned(m: Mapping)
    requires m.status == Ready && m.submissionId != ""
    ensures BuildPlan(m, TWO_BLUEPRINT, DEFAULT_POLICY) == Ok(PlanCandidates(m, TWO_BLUEPRINT, DEFAULT_POLICY))
    ensures PlanningProblem(m, TWO_BLUEPRINT, DEFAULT_POLICY).scored == ValidCandidates(m, TWO_BLUEPRINT, DEFAULT_POLICY)
  {
    hide PlanCandidates, ValidCandidates;
  }

  lemma TwoConstraints()
    ensures TWO_BLUEPRINT.constraints.questionCount == 2 && TWO_BLUEPRINT.constraints.mode == NotRequired
  {
  }

  lemma TwoPresented(p: Problem, plan: Plan)
    requires exists selected :: FeasibleOfSize(p, selected, 2) && MeetsMode(p, NotRequired, selected) && Presents(plan, p, selected)
    requires forall selected :: FeasibleOfSize(p, selected, 2) ==> selected == [0, 1]
    ensures InRange(p, [0, 1]) && plan.selectedIds == IdTuple(p, [0, 1])
  {
    hide Minutes, Compatible, Increasing, Reserve, MeetsMode;
  }

  lemma TwoNamed(p: Problem, ids: seq<string>, os: map<string, Opportunity>)
    requires |p.scored| == 2 && InRange(p, [0, 1]) && ids == IdTuple(p, [0, 1])
    requires OneOfTwo(p.Item(0)) && OneOfTwo(p.Item(1)) && p.Item(0).opportunityId != p.Item(1).opportunityId
    requires forall i :: 0 <= i < 2 ==> IdTuple(p, [0, 1])[i] in os && os[IdTuple(p, [0, 1])[i]] == p.Item([0, 1][i])
    ensures |ids| == 2 && ids[0] != ids[1] && forall id :: id in ids ==> id in os && OneOfTwo(os[id])
  {
  }

  // ---- Both questions are written and accepted ----

  lemma NamedTurn(same: bool, o: Opportunity)
    requires OneOfTwo(o)
    ensures QuestionFor(o, TwoBundle(), NamingServices(same)) == Ok(SelectedQuestion(NamedCandidate(same, o), o, NamingServices(same)))
  {
    NamedCandidatePasses(same, o);
    hide CheckCandidate, SelectedQuestion;
  }

  lemma NamedCandidatePasses(same: bool, o: Opportunity)
    requires OneOfTwo(o)
    ensures CheckCandidate(NamedCandidate(same, o), o, TwoBundle(), NamingServices(same).screen).Pass?
  {
    var c := NamedCandidate(same, o);
    TwoUnits();
    ContextPasses(TwoBundle());
    KnownIds(TwoBundle().units);
    assert o.responseFormats[0] == "OPEN_SHORT" && o.anchorStructures[0] == "SINGLE_FRAGMENT";
    assert UnitIds(TwoBundle().units)[0] == "unit-" + "1" && UnitIds(TwoBundle().units)[1] == "unit-" + "2";
    AcceptedCandidate(c, o, TwoBundle(), NamingServices(same).screen);
    NamedFragment(o);
    hide CheckCandidate, ContextInOrder, Fits, EvidenceById, Derivable, Within;
  }

  lemma NamedFragment(o: Opportunity)
    requires OneOfTwo(o) && NoDup(UnitIds(TwoBundle().units))
    ensures forall f :: f in OwnFragments(o) ==> Derivable(f, EvidenceById(TwoBundle().units))
  {
    var units := TwoBundle().units;
    assert units[0] == NamedUnit("1") && units[1] == NamedUnit("2");
    UnitById(units, NamedUnit("1"));
    UnitById(units, NamedUnit("2"));
    assert "" + "text" + "" == "text";
    assert |"LITERAL"| == 7 && |"TABLE_SLICE"| == 11;
    hide EvidenceById;
  }

  lemma NamedQuestion(same: bool, o: Opportunity)
    ensures var q := SelectedQuestion(NamedCandidate(same, o), o, NamingServices(same));
            q.questionId == "question-" + CandidateName(same, o) && q.candidateId == CandidateName(same, o)
            && q.sourceIds == [] && q.citationIds == [] && q.justificationRequired == o.justificationRequired
  {
  }

  lemma CandidateNames(x: Opportunity, y: Opportunity)
    ensures "question-" + CandidateName(true, x) == "question-" + CandidateName(true, y)
    ensures CandidateName(true, x) == CandidateName(true, y)
    ensures x.opportunityId != y.opportunityId ==> "question-" + CandidateName(false, x) != "question-" + CandidateName(false, y)
  {
    assert ("question-" + CandidateName(false, x))[9..][10..] == x.opportunityId;
    assert ("question-" + CandidateName(false, y))[9..][10..] == y.opportunityId;
  }

  // ---- What becomes of the run ----

  /** Both turns of the loop succeed. */
  lemma TwoQuestions(same: bool, ids: seq<string>, os: map<string, Opportunity>)
    requires |ids| == 2 && ids[0] != ids[1] && forall id :: id in ids ==> id in os && OneOfTwo(os[id]) && os[id].opportunityId == id
    ensures var r := QuestionsFor(ids, os, TwoBundle(), NamingServices(same));
            r.Ok? && |r.value| == 2 && CitesNothing(r.value) && (NoDup(QuestionIds(r.value)) <==> !same)
            && (same ==> r.value[0].candidateId == r.value[1].candidateId)
    ensures PlannedFlags(ids, os) == {false}
  {
    hide QuestionFor, QuestionsFor, SelectedQuestion, NamingServices, NamedCandidate, TwoBundle, CandidateName, Named;
    QuestionsTurnByTurn(ids, os, TwoBundle(), NamingServices(same));
    assert ids[0] in ids && ids[1] in ids;
    var x, y := os[ids[0]], os[ids[1]];
    NamedTurn(same, x);
    NamedTurn(same, y);
    NamedQuestion(same, x);
    NamedQuestion(same, y);
    CandidateNames(x, y);
    FlagsAreFalse(x);
    FlagsAreFalse(y);
    var r := QuestionsFor(ids, os, TwoBundle(), NamingServices(same));
    assert r.Ok?;
    assert r.value == [r.value[0], r.value[1]];
    assert PlannedFlags(ids, os) == {false};
  }

  lemma FlagsAreFalse(o: Opportunity)
    requires OneOfTwo(o)
    ensures !o.justificationRequired
  {
  }

  /** A run with two accepted questions fails exactly when the model gave their
      candidates one identifier, which nothing before assembly looks at. */
  lemma RepeatedCandidateStopsARun(same: bool)
    ensures var i := TwoRun(same);
            Admitted(i) && Deduplicated(i.modelMapping) == i.modelMapping && UniqueBlueprint(i.blueprint)
            && BuildPlan(i.modelMapping, i.blueprint, i.policy).Ok?
            && var plan, os := BuildPlan(i.modelMapping, i.blueprint, i.policy).value, OpportunitiesById(i.modelMapping.opportunities);
               plan.status == Ready
               && (forall id :: id in plan.selectedIds ==> id in os)
               && QuestionsFor(plan.selectedIds, os, i.bundle, i.services).Ok?
               && (if same then Stages(i) == Err(ContractViolation) else Stages(i).Ok? && Stages(i).value.Assessed?)
  {
    var i := TwoRun(same);
    TwoMapIsAccepted();
    TwoMapIsDeduplicated();
    TwoOnPath();
    TwoArePlanned();
    TwoIsAdmitted(same);
    hide *;
    var plan, os := BuildPlan(i.modelMapping, i.blueprint, i.policy).value, OpportunitiesById(i.modelMapping.opportunities);
    TwoRunParts(same);
    TwoQuestions(same, plan.selectedIds, os);
    WhatStopsARun(i);
    TwoEnds(i, plan, os, Stages(i), same);
  }

  lemma TwoRunParts(same: bool)
    ensures var i := TwoRun(same);
            i.modelMapping == TwoMapping() && i.blueprint == TWO_BLUEPRINT && i.policy == DEFAULT_POLICY && i.bundle == TwoBundle()
            && i.services == NamingServices(same) && i.blueprint.constraints.mode == NotRequired
  {
    hide TwoMapping, TwoBundle, NamingServices;
  }

  lemma TwoIsAdmitted(same: bool)
    requires MappingModel(TwoMapping()) && InputBounds(TWO_BLUEPRINT, DEFAULT_POLICY)
    requires CheckEvidenceMap(TwoMapping(), TWO_BLUEPRINT, TwoBundle()).Pass?
    ensures Admitted(TwoRun(same))
  {
    hide MappingModel, InputBounds, CheckEvidenceMap, NamingServices;
  }

  lemma TwoEnds(i: Inputs, plan: Plan, os: map<string, Opportunity>, r: Result<RunResult, ErrorCode>, same: bool)
    requires EndsAs(i, plan, os, r) && plan.status == Ready && i.blueprint.constraints.mode == NotRequired
    requires forall id :: id in plan.selectedIds ==> id in os
    requires var qs := QuestionsFor(plan.selectedIds, os, i.bundle, i.services);
             qs.Ok? && CitesNothing(qs.value) && (NoDup(QuestionIds(qs.value)) <==> !same)
    requires PlannedFlags(plan.selectedIds, os) == {false}
    ensures if same then r == Err(ContractViolation) else r.Ok? && r.value.Assessed?
  {
    hide QuestionsFor, NoDup, CitesNothing, PlannedFlags, QuestionIds;
  }
}
