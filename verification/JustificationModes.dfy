/** One-question activities that show what the planner does not enforce: a plan
    is READY under ALL and NOT_REQUIRED whatever its questions ask for, and the
    run fails at assembly when they ask for the wrong thing. */
module JustificationModes {
  import opened Orders
  import opened Results
  import opened Contracts
  import opened Scoring
  import opened BeamSearch
  import opened SearchExactness
  import opened Planner
  import opened PlannerProperties
  import opened Validation
  import opened Acceptance
  import opened QuestionValidation
  import opened Deduplication
  import opened Pipeline
  import opened Provenance
  import opened Run
  import opened Truncation

  // ---- An activity with one template, and a model that does what is asked ----

  function OneTemplate(flag: bool): Template {
    Template("template-1", "EXPLAIN_MECHANISM", "focus", "observable", "MEDIUM", 3, ["SINGLE_FRAGMENT"], ["OPEN_SHORT"], flag)
  }

  function TheVariant(flag: bool): Variant { Variant("variant-1", REQUIREMENT, ["EXPLAIN_MECHANISM"], [OneTemplate(flag)]) }

  function OneDimension(flag: bool): Dimension { Dimension("dimension-1", ["criterion"], 1.0, [TheVariant(flag)]) }

  function OneBlueprint(mode: JustificationMode, flag: bool): Blueprint {
    Blueprint("blueprint", 1, [OneDimension(flag)], Constraints(1, 3, ["OPEN_SHORT"], mode))
  }

  const ONE_UNIT := EvidenceUnit("unit-1", "tenant", Some("submission"), "artifact", true, "PARAGRAPH", 1.0, "locator", Some("text"), false)
  const ONE_BUNDLE := Bundle("tenant", "submission", Closed, ["unit-1"], [ONE_UNIT], [])
  const ONE_MATCH := VariantMatch("dimension-1", "variant-1", ["unit-1"], 1.0, 1.0)

  function OneOpportunity(flag: bool): Opportunity {
    Opportunity("opportunity-1", "template-1", "submission", "dimension-1", "variant-1", ["unit-1"],
                "EXPLAIN_MECHANISM", "focus", "observable", "MEDIUM", 3, ["SINGLE_FRAGMENT"], ["OPEN_SHORT"], 1.0, 1.0, 1.0, flag)
  }

  function OneMapping(flag: bool): Mapping {
    Mapping("submission", Ready, [], [ONE_MATCH], [OneOpportunity(flag)], [])
  }

  function FaithfulCandidate(o: Opportunity): Candidate {
    Candidate("candidate-1", o.submissionId, o.opportunityId, o.templateId, o.dimensionId, o.variantId, o.operation,
              "OPEN_SHORT", o.difficulty, o.targetMinutes, "question",
              Anchor("SINGLE_FRAGMENT", [Fragment("unit-1", "locator", Some("text"), "LITERAL")]),
              ["unit-1"], [], [], o.justificationRequired, GuideDraft([], []))
  }

  function FaithfulGeneration(o: Opportunity): Generation {
    Generation(Ready, o.submissionId, o.opportunityId, Some(FaithfulCandidate(o)), [])
  }

  function FavourableReview(o: Opportunity): Review {
    Review(Ready, o.submissionId, o.opportunityId,
           Some(SemanticReview("candidate-1", true, [], 1.0, 1.0, 1.0, 1.0, 1.0, o.difficulty, o.targetMinutes, ["unit-1"], [])), [])
  }

  /** A model whose candidates keep their plan and whose reviews accept them. */
  function FaithfulServices(): Services {
    Services(o => FaithfulGeneration(o), (o, g) => FavourableReview(o), text => Pass, (submission, candidate) => "question-1",
             ReviewPolicy(0.9, 0.8, 0.8, 0.85, 0.65))
  }

  function OneRun(mode: JustificationMode, flag: bool): Inputs {
    Inputs(OneMapping(flag), OneBlueprint(mode, flag), DEFAULT_POLICY, ONE_BUNDLE, FaithfulServices(), "assessment-1")
  }

  // ---- The map is accepted and planned ----

  lemma OneMapIsAccepted(mode: JustificationMode, flag: bool)
    ensures MappingModel(OneMapping(flag)) && InputBounds(OneBlueprint(mode, flag), DEFAULT_POLICY)
    ensures UniqueBlueprint(OneBlueprint(mode, flag))
    ensures CheckEvidenceMap(OneMapping(flag), OneBlueprint(mode, flag), ONE_BUNDLE).Pass?
    ensures Deduplicated(OneMapping(flag)) == OneMapping(flag)
  {
    var m, bp := OneMapping(flag), OneBlueprint(mode, flag);
    OneBlueprintIsUnique(mode, flag);
    OneFits(mode, flag);
    hide CheckEvidenceMap, OpportunityFits, MatchFits, UniqueBlueprint, Firsts;
    assert UnitIds([ONE_UNIT]) == ["unit-1"];
    AcceptedIffItFitsTheBlueprint(m, bp, ONE_BUNDLE);
    NothingToDrop(m.opportunities);
  }

  lemma OneBlueprintIsUnique(mode: JustificationMode, flag: bool)
    ensures UniqueBlueprint(OneBlueprint(mode, flag))
  {
    var ds := OneBlueprint(mode, flag).dimensions;
    OneVariant(OneDimension(flag), TheVariant(flag), OneTemplate(flag));
    assert ds[1..] == [];
    assert AllVariantIds(ds) == ["variant-1"] + AllVariantIds([]) && AllTemplateIds(ds) == ["template-1"] + AllTemplateIds([]);
  }

  lemma OneFits(mode: JustificationMode, flag: bool)
    ensures MatchFits(ONE_MATCH, OneBlueprint(mode, flag), ONE_BUNDLE)
    ensures OpportunityFits(OneOpportunity(flag), OneMapping(flag), OneBlueprint(mode, flag), ONE_BUNDLE)
  {
    var bp, d, v, t := OneBlueprint(mode, flag), OneDimension(flag), TheVariant(flag), OneTemplate(flag);
    assert bp.dimensions[0] == d && d.variants[0] == v && v.templates[0] == t && v.operations[0] == t.operation;
    assert OnPath(bp, d, v);
    assert "unit-1" in Elems(["unit-1"]) && REQUIREMENT.modalities[0] == "PARAGRAPH";
    assert ONE_BUNDLE.units[0] == ONE_UNIT;
    assert Fits(["unit-1"], REQUIREMENT, ONE_BUNDLE.units);
    assert OneMapping(flag).matches[0] == ONE_MATCH;
    assert DrawnFrom(OneOpportunity(flag), d, v, t, ONE_MATCH);
  }

  /** The only candidate is an acceptable selection unless the mode is SELECTED. */
  lemma OnePlanIsReady(mode: JustificationMode, flag: bool)
    requires mode != Selected
    ensures var plan := PlanCandidates(OneMapping(flag), OneBlueprint(mode, flag), DEFAULT_POLICY);
            plan.status == Ready && plan.selectedIds == ["opportunity-1"]
  {
    var m, bp := OneMapping(flag), OneBlueprint(mode, flag);
    var p := PlanningProblem(m, bp, DEFAULT_POLICY);
    OneMapIsAccepted(mode, flag);
    OneCandidate(mode, flag);
    hide *;
    OneSelection(p, flag, mode);
    OneMinutes(mode, flag);
    PlanIsExactUpToTen(m, bp, DEFAULT_POLICY);
    ReadyPlanMeaning(m, bp, DEFAULT_POLICY);
    OnePresented(p, flag, mode, PlanCandidates(m, bp, DEFAULT_POLICY));
  }

  lemma OneMinutes(mode: JustificationMode, flag: bool)
    ensures OneBlueprint(mode, flag).constraints.questionCount == 1 && OneBlueprint(mode, flag).constraints.mode == mode
  {
  }

  lemma OneCandidate(mode: JustificationMode, flag: bool)
    ensures var p := PlanningProblem(OneMapping(flag), OneBlueprint(mode, flag), DEFAULT_POLICY);
            |ValidCandidates(OneMapping(flag), OneBlueprint(mode, flag), DEFAULT_POLICY)| <= 10
            && |p.scored| == 1 && p.Item(0) == OneOpportunity(flag) && p.budget == 3
  {
    var m, bp := OneMapping(flag), OneBlueprint(mode, flag);
    var o := OneOpportunity(flag);
    assert "OPEN_SHORT" in o.responseFormats && "OPEN_SHORT" in bp.constraints.responseFormats;
    assert m.opportunities[1..] == [];
    assert Filtered(m.opportunities, bp.constraints, DEFAULT_POLICY)
           == [Scored(o, BaseScore(o, DEFAULT_POLICY))] + Filtered([], bp.constraints, DEFAULT_POLICY);
  }

  lemma OneSelection(p: Problem, flag: bool, mode: JustificationMode)
    requires |p.scored| == 1 && p.Item(0) == OneOpportunity(flag) && p.budget == 3 && mode != Selected
    ensures exists t :: Acceptable(p, 1, mode, t)
  {
    SingleState(p, 0);
    assert Acceptable(p, 1, mode, [0]);
  }

  lemma OnePresented(p: Problem, flag: bool, mode: JustificationMode, plan: Plan)
    requires |p.scored| == 1 && p.Item(0) == OneOpportunity(flag)
    requires exists selected :: FeasibleOfSize(p, selected, 1) && MeetsMode(p, mode, selected) && Presents(plan, p, selected)
    ensures plan.selectedIds == ["opportunity-1"]
  {
    hide Minutes, Compatible, MeetsMode, Reserve;
    var selected :| FeasibleOfSize(p, selected, 1) && MeetsMode(p, mode, selected) && Presents(plan, p, selected);
    assert selected[0] == 0 && IdTuple(p, selected)[0] == "opportunity-1";
  }

  // ---- The question is written and accepted ----

  lemma OneQuestion(flag: bool)
    ensures QuestionFor(OneOpportunity(flag), ONE_BUNDLE, FaithfulServices())
            == Ok(SelectedQuestion(FaithfulCandidate(OneOpportunity(flag)), OneOpportunity(flag), FaithfulServices()))
  {
    var o := OneOpportunity(flag);
    OneCandidatePasses(flag);
    hide CheckCandidate, SelectedQuestion;
  }

  lemma OneCandidatePasses(flag: bool)
    ensures CheckCandidate(FaithfulCandidate(OneOpportunity(flag)), OneOpportunity(flag), ONE_BUNDLE, FaithfulServices().screen).Pass?
  {
    var o := OneOpportunity(flag);
    var c := FaithfulCandidate(o);
    assert ONE_BUNDLE.units[..0] == [];
    assert UnitIds([ONE_UNIT]) == ["unit-1"];
    ContextPasses(ONE_BUNDLE);
    AcceptedCandidate(c, o, ONE_BUNDLE, FaithfulServices().screen);
    assert o.responseFormats[0] == "OPEN_SHORT" && o.anchorStructures[0] == "SINGLE_FRAGMENT";
    assert EvidenceById(ONE_BUNDLE.units)["unit-1"] == ONE_UNIT;
    assert "" + "text" + "" == "text";
    assert |"LITERAL"| == 7 && |"TABLE_SLICE"| == 11;
    assert Derivable(c.anchor.fragments[0], EvidenceById(ONE_BUNDLE.units));
  }

  /** The question that the run produces. */
  function TheQuestion(flag: bool): Question {
    SelectedQuestion(FaithfulCandidate(OneOpportunity(flag)), OneOpportunity(flag), FaithfulServices())
  }

  lemma OneLoop(flag: bool)
    ensures var os, ids := OpportunitiesById([OneOpportunity(flag)]), ["opportunity-1"];
            "opportunity-1" in os
            && QuestionsFor(ids, os, ONE_BUNDLE, FaithfulServices()) == Ok([TheQuestion(flag)])
            && PlannedFlags(ids, os) == {flag}
  {
    hide QuestionFor, SelectedQuestion, FaithfulServices;
    var o, ids := OneOpportunity(flag), ["opportunity-1"];
    var os := OpportunitiesById([o]);
    OneQuestion(flag);
    assert [o][..0] == [] && [o][0] == o && ids[0] == "opportunity-1" && ids[1..] == [];
    assert os["opportunity-1"] == o;
    OneTurn(ids, os, ONE_BUNDLE, FaithfulServices(), TheQuestion(flag));
    assert PlannedFlags(ids, os) == {flag};
  }

  lemma OneTurn(ids: seq<string>, os: map<string, Opportunity>, bundle: Bundle, services: Services, q: Question)
    requires |ids| == 1 && ids[0] in os && QuestionFor(os[ids[0]], bundle, services) == Ok(q)
    ensures QuestionsFor(ids, os, bundle, services) == Ok([q])
  {
    hide QuestionFor;
    assert ids[1..] == [];
    var none: seq<string> := [];
    assert QuestionsFor(none, os, bundle, services) == Ok([]);
    assert [q] + [] == [q];
  }

  lemma OneQuestionFacts(flag: bool)
    ensures NoDup(QuestionIds([TheQuestion(flag)])) && CitesNothing([TheQuestion(flag)])
  {
  }

  // ---- What becomes of the run ----

  lemma OneIsPlanned(mode: JustificationMode, flag: bool)
    requires mode != Selected && Deduplicated(OneMapping(flag)) == OneMapping(flag)
    ensures var planned := BuildPlan(Deduplicated(OneMapping(flag)), OneBlueprint(mode, flag), DEFAULT_POLICY);
            planned.Ok? && planned.value.status == Ready && planned.value.selectedIds == ["opportunity-1"]
  {
    OnePlanIsReady(mode, flag);
    hide PlanCandidates, Deduplicated;
  }

  lemma OneIsAdmitted(mode: JustificationMode, flag: bool)
    requires MappingModel(OneMapping(flag)) && InputBounds(OneBlueprint(mode, flag), DEFAULT_POLICY)
    requires CheckEvidenceMap(OneMapping(flag), OneBlueprint(mode, flag), ONE_BUNDLE).Pass?
    ensures Admitted(OneRun(mode, flag))
  {
    hide MappingModel, InputBounds, CheckEvidenceMap, FaithfulServices;
  }

  lemma OneRunParts(mode: JustificationMode, flag: bool)
    ensures var i := OneRun(mode, flag);
            i.modelMapping == OneMapping(flag) && i.blueprint == OneBlueprint(mode, flag) && i.policy == DEFAULT_POLICY
            && i.bundle == ONE_BUNDLE && i.services == FaithfulServices()
            && i.blueprint.constraints.mode == mode && i.modelMapping.opportunities == [OneOpportunity(flag)]
  {
    hide FaithfulServices, OneOpportunity, OneDimension;
  }

  lemma EndsByFlag(i: Inputs, plan: Plan, os: map<string, Opportunity>, r: Result<RunResult, ErrorCode>, q: Question, flag: bool)
    requires EndsAs(i, plan, os, r) && plan.status == Ready && i.blueprint.constraints.mode != Selected
    requires forall id :: id in plan.selectedIds ==> id in os
    requires QuestionsFor(plan.selectedIds, os, i.bundle, i.services) == Ok([q])
    requires NoDup(QuestionIds([q])) && CitesNothing([q]) && PlannedFlags(plan.selectedIds, os) == {flag}
    ensures r.Err? <==> if i.blueprint.constraints.mode == All then !flag else flag
    ensures r.Err? ==> r.error == ContractViolation
  {
    hide QuestionsFor, NoDup, CitesNothing, PlannedFlags, QuestionIds;
  }

  /** The plan is READY and the question is written and accepted, whatever the
      template asks for; but under ALL the run fails when it does not ask for
      justification, and under NOT_REQUIRED when it does. */
  lemma ModesAreNotEnforcedByPlanning(mode: JustificationMode, flag: bool)
    requires mode != Selected
    ensures var i := OneRun(mode, flag);
            Admitted(i) && UniqueBlueprint(i.blueprint)
            && BuildPlan(Deduplicated(i.modelMapping), i.blueprint, i.policy).Ok?
            && BuildPlan(Deduplicated(i.modelMapping), i.blueprint, i.policy).value.status == Ready
            && (Stages(i).Err? <==> if mode == All then !flag else flag)
            && (Stages(i).Err? ==> Stages(i).error == ContractViolation)
  {
    var i := OneRun(mode, flag);
    OneMapIsAccepted(mode, flag);
    OneIsPlanned(mode, flag);
    OneLoop(flag);
    OneQuestionFacts(flag);
    OneRunParts(mode, flag);
    OneIsAdmitted(mode, flag);
    WhatStopsARun(i);
    hide *;
    var mapping := Deduplicated(i.modelMapping);
    EndsByFlag(i, BuildPlan(mapping, i.blueprint, i.policy).value, OpportunitiesById(mapping.opportunities), Stages(i), TheQuestion(flag), flag);
  }

  // ---- A map that passes validation and that the planner refuses ----

  function FailedMapping(): Mapping {
    Mapping("submission", TechnicalFailure, [], [], [], [Diagnostic(OfStatus(TechnicalFailure), Error, [], false, NoDetails)])
  }

  /** The validator accepts an empty TECHNICAL_FAILURE map with its diagnostic, and
      then planning raises. */
  lemma TechnicalFailureStopsARun(mode: JustificationMode, flag: bool)
    ensures var i := OneRun(mode, flag).(modelMapping := FailedMapping());
            Admitted(i) && Stages(i) == Err(MappingNotPlannable)
  {
    var i := OneRun(mode, flag).(modelMapping := FailedMapping());
    assert i.modelMapping.diagnostics[0].code == OfStatus(TechnicalFailure);
    assert UnitIds([ONE_UNIT]) == ["unit-1"];
    ContextPasses(ONE_BUNDLE);
    OneFailureIsAccepted(i.blueprint);
    hide Stages, CheckEvidenceMap, BuildPlan, Deduplicated, EndsAs, FaithfulServices;
    WhatStopsARun(i);
  }

  lemma OneFailureIsAccepted(blueprint: Blueprint)
    requires CheckEvidenceContext(ONE_BUNDLE).Pass?
    ensures CheckEvidenceMap(FailedMapping(), blueprint, ONE_BUNDLE).Pass?
  {
    hide CheckEvidenceContext, BlueprintIndex, EvidenceById;
    assert FailedMapping().diagnostics[0].code == OfStatus(TechnicalFailure);
  }
}
