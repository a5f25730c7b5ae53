/** The validated stages of a synthetic run, from the model's evidence map to an
    assembled assessment, and what holds of every run. */
module Run {
  import opened Orders
  import opened Results
  import opened Contracts
  import opened BeamSearch
  import opened Planner
  import opened PlannerProperties
  import opened Validation
  import opened QuestionValidation
  import opened Deduplication
  import opened Pipeline
  import opened Provenance
  import opened Coverage

  datatype RunResult = NoAssessment(plan: Plan) | Assessed(plan: Plan, assessment: Assessment)

  datatype Inputs = Inputs(
    modelMapping: Mapping, blueprint: Blueprint, policy: PlanningPolicy,
    bundle: Bundle, services: Services, assessmentId: string)

  lemma AcceptedPlanIds(plan: Plan, mapping: Mapping)
    requires plan.status == Ready && CheckAssessmentPlan(plan, mapping).Pass?
    ensures forall id :: id in plan.selectedIds ==> id in OpportunitiesById(mapping.opportunities)
  {
    hide OpportunitiesById, NoDup;
    forall id | id in plan.selectedIds ensures id in OpportunitiesById(mapping.opportunities) {
      assert id in Elems(plan.selectedIds + plan.reserveIds);
    }
  }

  /** The stages, each of which may raise. */
  function Stages(i: Inputs): Result<RunResult, ErrorCode> {
    hide CheckEvidenceMap, Deduplicated, BuildPlan, CheckAssessmentPlan, QuestionsFor, Assemble, OpportunitiesById;
    var first := CheckEvidenceMap(i.modelMapping, i.blueprint, i.bundle);
    if first.Fail? then Err(first.error)
    else
      var mapping := Deduplicated(i.modelMapping);
      var second := CheckEvidenceMap(mapping, i.blueprint, i.bundle);
      if second.Fail? then Err(second.error)
      else
        var plan :- BuildPlan(mapping, i.blueprint, i.policy);
        var planned := CheckAssessmentPlan(plan, mapping);
        if planned.Fail? then Err(planned.error)
        else if plan.status != Ready then Ok(NoAssessment(plan))
        else
          AcceptedPlanIds(plan, mapping);
          var questions :- QuestionsFor(plan.selectedIds, OpportunitiesById(mapping.opportunities), i.bundle, i.services);
          var assessment :- Assemble(i.assessmentId, i.blueprint, mapping, plan, questions);
          Ok(Assessed(plan, assessment))
  }

  method RunStages(i: Inputs) returns (r: Result<RunResult, ErrorCode>)
    ensures r == Stages(i)
  {
    hide CheckEvidenceMap, Deduplicated, BuildPlan, CheckAssessmentPlan, QuestionsFor, Assemble, OpportunitiesById;
    var check := ValidateEvidenceMap(i.modelMapping, i.blueprint, i.bundle);
    if check.Fail? {
      return Err(check.error);
    }
    var mapping := DeduplicatePlanningOpportunities(i.modelMapping);
    check := ValidateEvidenceMap(mapping, i.blueprint, i.bundle);
    if check.Fail? {
      return Err(check.error);
    }
    var plan := BuildAssessmentPlan(mapping, i.blueprint, i.policy);
    if plan.Err? {
      return Err(plan.error);
    }
    check := ValidateAssessmentPlan(plan.value, mapping);
    if check.Fail? {
      return Err(check.error);
    }
    if plan.value.status != Ready {
      return Ok(NoAssessment(plan.value));
    }
    AcceptedPlanIds(plan.value, mapping);
    var questions := BuildQuestions(plan.value, mapping, i.bundle, i.services);
    if questions.Err? {
      return Err(questions.error);
    }
    var assessment := Assemble(i.assessmentId, i.blueprint, mapping, plan.value, questions.value);
    if assessment.Err? {
      return Err(assessment.error);
    }
    return Ok(Assessed(plan.value, assessment.value));
  }

  /** Inputs that have passed their models and the first validation. */
  ghost predicate Admitted(i: Inputs) {
    && MappingModel(i.modelMapping) && InputBounds(i.blueprint, i.policy)
    && i.modelMapping.submissionId != ""
    && CheckEvidenceMap(i.modelMapping, i.blueprint, i.bundle).Pass?
  }

  lemma ReadyFromCandidates(i: Inputs)
    ensures var mapping := Deduplicated(i.modelMapping);
            var r := BuildPlan(mapping, i.blueprint, i.policy);
            r.Ok? && r.value.status == Ready ==> mapping.status == Ready && r.value == PlanCandidates(mapping, i.blueprint, i.policy)
  {
    hide PlanCandidates, Deduplicated, SortedSet, DiagnosticEvidence;
  }

  /** The justification flags of the planned opportunities. */
  ghost function PlannedFlags(ids: seq<string>, os: map<string, Opportunity>): set<bool> {
    set id | id in ids && id in os :: os[id].justificationRequired
  }

  lemma FlagsOfQuestions(ids: seq<string>, os: map<string, Opportunity>, bundle: Bundle, services: Services, questions: seq<Question>)
    requires forall id :: id in ids ==> id in os
    requires QuestionsFor(ids, os, bundle, services) == Ok(questions)
    ensures (set q | q in questions :: q.justificationRequired) == PlannedFlags(ids, os)
  {
    hide QuestionsFor;
    QuestionsAreWrittenFor(ids, os, bundle, services);
    forall k | 0 <= k < |ids| ensures questions[k].justificationRequired == os[ids[k]].justificationRequired {
      assert WrittenFor(questions[k], os[ids[k]], bundle);
    }
    hide WrittenFor;
    var flags := set q | q in questions :: q.justificationRequired;
    forall flag ensures flag in flags <==> flag in PlannedFlags(ids, os) {
      if q :| q in questions && q.justificationRequired == flag {
        var k :| 0 <= k < |questions| && questions[k] == q;
        assert ids[k] in ids;
      }
      if id :| id in ids && os[id].justificationRequired == flag {
        var k :| 0 <= k < |ids| && ids[k] == id;
        assert questions[k] in questions;
      }
    }
  }

  /** What becomes of a run after planning: no assessment without a READY plan, the
      first refusal of a question, or assembly, which fails exactly when question
      identifiers repeat, a source is cited, or the planned flags do not suit the
      mode. */
  ghost predicate EndsAs(i: Inputs, plan: Plan, os: map<string, Opportunity>, r: Result<RunResult, ErrorCode>) {
    if plan.status != Ready then r == Ok(NoAssessment(plan))
    else
      (forall id :: id in plan.selectedIds ==> id in os)
      && match QuestionsFor(plan.selectedIds, os, i.bundle, i.services)
         case Err(e) =>
           r == Err(e) && exists k :: 0 <= k < |plan.selectedIds| && QuestionFor(os[plan.selectedIds[k]], i.bundle, i.services) == Err(e)
         case Ok(questions) =>
           (r.Err? ==> r.error == ContractViolation)
           && (r.Ok? ==> r.value.Assessed? && r.value.assessment.questions == questions)
           && (r.Err? <==> !NoDup(QuestionIds(questions)) || !CitesNothing(questions)
                           || !FlagsSuit(i.blueprint.constraints.mode, PlannedFlags(plan.selectedIds, os)))
  }

  /** After the first validation, re-validation and plan validation never raise.
      Planning raises exactly when the status of the map is one the planner does
      not take, such as TECHNICAL_FAILURE; otherwise how the run ends is settled
      by the plan and its questions. Under SELECTED the flags always suit. */
  lemma WhatStopsARun(i: Inputs)
    requires Admitted(i)
    ensures var mapping := Deduplicated(i.modelMapping);
            var planned, os := BuildPlan(mapping, i.blueprint, i.policy), OpportunitiesById(mapping.opportunities);
            (planned.Err? <==> i.modelMapping.status != Ready && !Plannable(i.modelMapping.status))
            && (planned.Err? ==> Stages(i) == Err(MappingNotPlannable))
            && (planned.Ok? ==> EndsAs(i, planned.value, os, Stages(i)))
            && (planned.Ok? && planned.value.status == Ready && i.blueprint.constraints.mode == Selected ==>
                  FlagsSuit(Selected, PlannedFlags(planned.value.selectedIds, os)))
  {
    hide CheckEvidenceMap, BuildPlan, CheckAssessmentPlan, QuestionFor, QuestionsFor, Assemble, MappingModel, PlanModel, Deduplicated,
         OpportunitiesById, PlannedFlags, FlagsSuit, CitesNothing, NoDup;
    var mapping := Deduplicated(i.modelMapping);
    DeduplicatedStatus(i.modelMapping);
    DeduplicationKeepsValidity(i.modelMapping, i.blueprint, i.bundle);
    PlanningRaises(mapping, i.blueprint, i.policy);
    if i.modelMapping.status != Ready && !Plannable(i.modelMapping.status) {
      return;
    }
    PlannerIsTotal(mapping, i.blueprint, i.policy);
    var plan, os := BuildPlan(mapping, i.blueprint, i.policy).value, OpportunitiesById(mapping.opportunities);
    if plan.status == Ready {
      AcceptedPlanIds(plan, mapping);
      ReadyFromCandidates(i);
      QuestionsTurnByTurn(plan.selectedIds, os, i.bundle, i.services);
      SelectedFlagsSuit(mapping, i.blueprint, i.policy);
      var questions := QuestionsFor(plan.selectedIds, os, i.bundle, i.services);
      if questions.Ok? {
        FlagsOfQuestions(plan.selectedIds, os, i.bundle, i.services, questions.value);
        PlanSize(mapping, i.blueprint, i.policy);
        AssembleSpec(i.assessmentId, i.blueprint, mapping, plan, questions.value);
        AssembledParts(i.assessmentId, i.blueprint, mapping, plan, questions);
        SelectedFlags(i.blueprint.constraints.mode, plan.selectedIds, os);
      }
    }
  }

  lemma PlanningRaises(mapping: Mapping, blueprint: Blueprint, policy: PlanningPolicy)
    requires mapping.submissionId != ""
    ensures BuildPlan(mapping, blueprint, policy).Err? <==> mapping.status != Ready && !Plannable(mapping.status)
    ensures BuildPlan(mapping, blueprint, policy).Err? ==> BuildPlan(mapping, blueprint, policy).error == MappingNotPlannable
  {
    hide PlanCandidates;
  }

  lemma DeduplicatedStatus(mapping: Mapping)
    ensures Deduplicated(mapping).status == mapping.status && Deduplicated(mapping).submissionId == mapping.submissionId
  {
  }

  lemma PlanSize(mapping: Mapping, blueprint: Blueprint, policy: PlanningPolicy)
    requires MappingModel(mapping)
    ensures var plan := PlanCandidates(mapping, blueprint, policy);
            plan.status == Ready ==> |plan.selectedIds| == plan.questionCount
  {
    hide PlanCandidates, ValidCandidates, MeetsMode, MappingModel, Minutes, Compatible, Increasing;
    PlanCount(mapping, blueprint, policy);
    ReadyPlanMeaning(mapping, blueprint, policy);
  }

  lemma SelectedFlags(mode: JustificationMode, ids: seq<string>, os: map<string, Opportunity>)
    ensures mode == Selected ==> (FlagsSuit(mode, PlannedFlags(ids, os)) <==> true in PlannedFlags(ids, os))
  {
  }

  /** Under SELECTED some planned opportunity asks for justification. */
  lemma SelectedFlagsSuit(mapping: Mapping, blueprint: Blueprint, policy: PlanningPolicy)
    requires MappingModel(mapping)
    ensures var plan := PlanCandidates(mapping, blueprint, policy);
            plan.status == Ready && blueprint.constraints.mode == Selected ==>
              FlagsSuit(Selected, PlannedFlags(plan.selectedIds, OpportunitiesById(mapping.opportunities)))
  {
    hide PlanCandidates, ValidCandidates, OpportunitiesById, MappingModel, Minutes, Compatible, Increasing, MeetsMode, Reserve,
         PlannedFlags, FlagsSuit;
    var plan, p := PlanCandidates(mapping, blueprint, policy), PlanningProblem(mapping, blueprint, policy);
    if plan.status == Ready && blueprint.constraints.mode == Selected {
      ReadyPlanMeaning(mapping, blueprint, policy);
      var selected :| FeasibleOfSize(p, selected, blueprint.constraints.questionCount)
        && MeetsMode(p, Selected, selected) && Presents(plan, p, selected);
      PlannedOpportunities(mapping, blueprint, policy, selected);
      FlagIsPlanned(p, selected, plan.selectedIds, OpportunitiesById(mapping.opportunities));
    }
  }

  lemma FlagIsPlanned(p: Problem, selected: seq<nat>, ids: seq<string>, os: map<string, Opportunity>)
    requires InRange(p, selected) && MeetsMode(p, Selected, selected) && |ids| == |selected|
    requires forall i :: 0 <= i < |selected| ==> ids[i] in os && os[ids[i]] == p.Item(selected[i])
    ensures FlagsSuit(Selected, PlannedFlags(ids, os))
  {
    var k :| 0 <= k < |selected| && p.Item(selected[k]).justificationRequired;
    assert ids[k] in ids && os[ids[k]].justificationRequired;
  }

  /** A run that ends with an assessment has exactly N questions within the time
      target, complete coverage counts, and only grounded question evidence. */
  lemma AssessedRunIsWhole(i: Inputs, plan: Plan, a: Assessment)
    requires Admitted(i) && Stages(i) == Ok(Assessed(plan, a)) && NoDup(DimensionIds(i.blueprint.dimensions))
    ensures |a.questions| == i.blueprint.constraints.questionCount
    ensures QuestionMinutes(a.questions) == plan.totalMinutes <= i.blueprint.constraints.targetTotalMinutes
    ensures Available(a.coverage) == |Deduplicated(i.modelMapping).opportunities|
    ensures SelectedTotal(a.coverage) == i.blueprint.constraints.questionCount
    ensures forall q, e :: q in a.questions && e in q.evidenceIds ==>
              exists o: Opportunity :: o.opportunityId == q.opportunityId && Grounded(e, o, Deduplicated(i.modelMapping), i.blueprint, i.bundle)
  {
    hide Stages, PlanCandidates, Deduplicated, CheckEvidenceMap, QuestionsFor, CoverageOf, OpportunitiesById, MappingModel, Grounded, RunOf, NoDup;
    var mapping := Deduplicated(i.modelMapping);
    AssessedParts(i, plan, a);
    DeduplicationKeepsValidity(i.modelMapping, i.blueprint, i.bundle);
    ReadyPlanRuns(mapping, i.blueprint, i.policy, i.bundle, i.services);
    var selected :| RunOf(mapping, i.blueprint, i.policy, i.bundle, i.services, selected, a.questions);
    MinutesAreConserved(mapping, i.blueprint, i.policy, i.bundle, i.services, selected, a.questions);
    CoverageIsConserved(mapping, i.blueprint, i.policy, i.bundle, i.services, selected, a.questions);
    forall q, e | q in a.questions && e in q.evidenceIds
      ensures exists o: Opportunity :: o.opportunityId == q.opportunityId && Grounded(e, o, mapping, i.blueprint, i.bundle)
    {
      QuestionIsGrounded(mapping, i, selected, a.questions, q, e);
    }
  }

  lemma QuestionIsGrounded(mapping: Mapping, i: Inputs, selected: seq<nat>, questions: seq<Question>, q: Question, e: string)
    requires RunOf(mapping, i.blueprint, i.policy, i.bundle, i.services, selected, questions)
    requires mapping.status == Ready && CheckEvidenceMap(mapping, i.blueprint, i.bundle).Pass?
    requires q in questions && e in q.evidenceIds
    ensures exists o: Opportunity :: o.opportunityId == q.opportunityId && Grounded(e, o, mapping, i.blueprint, i.bundle)
  {
    hide RunOf, CheckEvidenceMap, Grounded, ValidCandidates;
    RunQuestions(mapping, i.blueprint, i.policy, i.bundle, i.services, selected, questions);
    var k :| 0 <= k < |questions| && questions[k] == q;
    var o := PlanningProblem(mapping, i.blueprint, i.policy).Item(selected[k]);
    assert WrittenFor(questions[k], o, i.bundle);
    assert e in Elems(q.evidenceIds) && e in Elems(o.evidenceIds);
    OpportunityEvidenceGrounded(mapping, i.blueprint, i.bundle, o, e);
  }

  lemma AssessedParts(i: Inputs, plan: Plan, a: Assessment)
    requires Stages(i) == Ok(Assessed(plan, a))
    ensures var mapping := Deduplicated(i.modelMapping);
            mapping.status == Ready && plan.status == Ready && plan == PlanCandidates(mapping, i.blueprint, i.policy)
            && (forall id :: id in plan.selectedIds ==> id in OpportunitiesById(mapping.opportunities))
            && QuestionsFor(plan.selectedIds, OpportunitiesById(mapping.opportunities), i.bundle, i.services) == Ok(a.questions)
            && a.coverage == CoverageOf(i.blueprint.dimensions, mapping.opportunities, a.questions)
  {
    hide CheckEvidenceMap, CheckAssessmentPlan, QuestionsFor, OpportunitiesById, Deduplicated, BuildPlan, Assemble, CoverageOf,
         PlanCandidates, AssessmentModel, NoDup, Elems;
    var mapping := Deduplicated(i.modelMapping);
    AcceptedPlanIds(plan, mapping);
    AssembledParts(i.assessmentId, i.blueprint, mapping, plan, QuestionsFor(plan.selectedIds, OpportunitiesById(mapping.opportunities), i.bundle, i.services));
    ReadyFromCandidates(i);
  }

  lemma AssembledParts(assessmentId: string, blueprint: Blueprint, mapping: Mapping, plan: Plan, questions: Result<seq<Question>, ErrorCode>)
    ensures questions.Ok? ==>
              var r := Assemble(assessmentId, blueprint, mapping, plan, questions.value);
              r.Ok? ==> r.value.questions == questions.value
                        && r.value.coverage == CoverageOf(blueprint.dimensions, mapping.opportunities, questions.value)
  {
    hide CoverageOf, AssessmentModel, RequiredIds;
  }
}
