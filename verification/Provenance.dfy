/** What survives a whole run: planned minutes and justification, and the
    evidence behind every line of the evaluation guide. */
module Provenance {
  import opened Orders
  import opened Results
  import opened Contracts
  import opened Scoring
  import opened BeamSearch
  import opened Planner
  import opened PlannerProperties
  import opened Validation
  import opened QuestionValidation
  import opened Pipeline

  // ---- From planned identifiers back to opportunities ----

  lemma FindById(os: seq<Opportunity>, o: Opportunity)
    requires NoDup(IdsOf(os)) && o in os
    ensures o.opportunityId in OpportunitiesById(os) && OpportunitiesById(os)[o.opportunityId] == o
  {
    DistinctIdsMeans(os);
    var k :| 0 <= k < |os| && os[k] == o;
    assert IdsOf(os)[k] == o.opportunityId;
  }

  /** The loop visits exactly the selected candidates, in order. */
  lemma PlannedOpportunities(mapping: Mapping, blueprint: Blueprint, policy: PlanningPolicy, selected: seq<nat>)
    requires MappingModel(mapping)
    requires InRange(PlanningProblem(mapping, blueprint, policy), selected)
    ensures var p, os := PlanningProblem(mapping, blueprint, policy), OpportunitiesById(mapping.opportunities);
            forall i :: 0 <= i < |selected| ==>
              IdTuple(p, selected)[i] in os && os[IdTuple(p, selected)[i]] == p.Item(selected[i])
  {
    hide OpportunitiesById, ValidCandidates, IsCandidate, BaseScore, NoDup;
    var p := PlanningProblem(mapping, blueprint, policy);
    CandidateFacts(mapping, blueprint, policy);
    forall i | 0 <= i < |selected|
      ensures IdTuple(p, selected)[i] in OpportunitiesById(mapping.opportunities)
      ensures OpportunitiesById(mapping.opportunities)[IdTuple(p, selected)[i]] == p.Item(selected[i])
    {
      assert p.scored[selected[i]] in p.scored;
      FindById(mapping.opportunities, p.Item(selected[i]));
    }
  }

  function QuestionMinutes(questions: seq<Question>): nat {
    if questions == [] then 0 else QuestionMinutes(questions[..|questions|-1]) + questions[|questions|-1].estimatedMinutes
  }

  lemma {:induction false} MinutesCarryOver(questions: seq<Question>, items: seq<Opportunity>)
    requires |questions| == |items| && forall i :: 0 <= i < |items| ==> questions[i].estimatedMinutes == items[i].targetMinutes
    ensures QuestionMinutes(questions) == MinutesOf(items)
  {
    if items != [] {
      MinutesCarryOver(questions[..|questions|-1], items[..|items|-1]);
    }
  }

  /** The questions of a run, when the plan is READY and no turn refuses. */
  ghost predicate RunOf(mapping: Mapping, blueprint: Blueprint, policy: PlanningPolicy, bundle: Bundle, services: Services,
                        selected: seq<nat>, questions: seq<Question>) {
    var plan, p := PlanCandidates(mapping, blueprint, policy), PlanningProblem(mapping, blueprint, policy);
    && MappingModel(mapping) && plan.status == Ready
    && FeasibleOfSize(p, selected, blueprint.constraints.questionCount)
    && MeetsMode(p, blueprint.constraints.mode, selected) && Presents(plan, p, selected)
    && (forall id :: id in plan.selectedIds ==> id in OpportunitiesById(mapping.opportunities))
    && QuestionsFor(plan.selectedIds, OpportunitiesById(mapping.opportunities), bundle, services) == Ok(questions)
  }

  /** Every READY plan has a run: the selection behind it exists and all of its
      identifiers are found, so the loop is defined on it. */
  lemma ReadyPlanRuns(mapping: Mapping, blueprint: Blueprint, policy: PlanningPolicy, bundle: Bundle, services: Services)
    requires MappingModel(mapping) && PlanCandidates(mapping, blueprint, policy).status == Ready
    ensures var ids := PlanCandidates(mapping, blueprint, policy).selectedIds;
            (forall id :: id in ids ==> id in OpportunitiesById(mapping.opportunities))
            && forall questions :: QuestionsFor(ids, OpportunitiesById(mapping.opportunities), bundle, services) == Ok(questions) ==>
                 exists selected :: RunOf(mapping, blueprint, policy, bundle, services, selected, questions)
  {
    hide PlanCandidates, ValidCandidates, MeetsMode, OpportunitiesById, QuestionsFor, MappingModel, Minutes, Compatible;
    var plan, p := PlanCandidates(mapping, blueprint, policy), PlanningProblem(mapping, blueprint, policy);
    ReadyPlanMeaning(mapping, blueprint, policy);
    var selected :| FeasibleOfSize(p, selected, blueprint.constraints.questionCount)
      && MeetsMode(p, blueprint.constraints.mode, selected) && Presents(plan, p, selected);
    PlannedOpportunities(mapping, blueprint, policy, selected);
    forall id | id in plan.selectedIds ensures id in OpportunitiesById(mapping.opportunities) {
      var i :| 0 <= i < |plan.selectedIds| && plan.selectedIds[i] == id;
    }
    forall questions | QuestionsFor(plan.selectedIds, OpportunitiesById(mapping.opportunities), bundle, services) == Ok(questions)
      ensures exists selected :: RunOf(mapping, blueprint, policy, bundle, services, selected, questions)
    {
      assert RunOf(mapping, blueprint, policy, bundle, services, selected, questions);
    }
  }

  /** Question i is what turn i of the loop made of selected candidate i. */
  lemma RunTurns(mapping: Mapping, blueprint: Blueprint, policy: PlanningPolicy, bundle: Bundle, services: Services,
                 selected: seq<nat>, questions: seq<Question>)
    requires RunOf(mapping, blueprint, policy, bundle, services, selected, questions)
    ensures var p := PlanningProblem(mapping, blueprint, policy);
            InRange(p, selected) && |questions| == |selected|
            && forall i :: 0 <= i < |selected| ==> QuestionFor(p.Item(selected[i]), bundle, services) == Ok(questions[i])
  {
    hide PlanCandidates, ValidCandidates, MeetsMode, OpportunitiesById, MappingModel, QuestionFor, QuestionsFor;
    var p := PlanningProblem(mapping, blueprint, policy);
    var ids := PlanCandidates(mapping, blueprint, policy).selectedIds;
    var os := OpportunitiesById(mapping.opportunities);
    PlannedOpportunities(mapping, blueprint, policy, selected);
    QuestionsTurnByTurn(ids, os, bundle, services);
    forall i | 0 <= i < |selected| ensures QuestionFor(p.Item(selected[i]), bundle, services) == Ok(questions[i]) {
      assert os[ids[i]] == p.Item(selected[i]);
    }
  }

  /** Question i is written for selected candidate i. */
  lemma RunQuestions(mapping: Mapping, blueprint: Blueprint, policy: PlanningPolicy, bundle: Bundle, services: Services,
                     selected: seq<nat>, questions: seq<Question>)
    requires RunOf(mapping, blueprint, policy, bundle, services, selected, questions)
    ensures var p := PlanningProblem(mapping, blueprint, policy);
            InRange(p, selected) && |questions| == |selected| == blueprint.constraints.questionCount
            && forall i :: 0 <= i < |selected| ==>
                 p.Item(selected[i]) in mapping.opportunities && WrittenFor(questions[i], p.Item(selected[i]), bundle)
  {
    hide PlanCandidates, ValidCandidates, MeetsMode, OpportunitiesById, WrittenFor, MappingModel, IsCandidate, BaseScore;
    var p := PlanningProblem(mapping, blueprint, policy);
    var ids := PlanCandidates(mapping, blueprint, policy).selectedIds;
    var os := OpportunitiesById(mapping.opportunities);
    PlannedOpportunities(mapping, blueprint, policy, selected);
    QuestionsAreWrittenFor(ids, os, bundle, services);
    forall i | 0 <= i < |selected|
      ensures p.Item(selected[i]) in mapping.opportunities && WrittenFor(questions[i], p.Item(selected[i]), bundle)
    {
      assert os[ids[i]] == p.Item(selected[i]);
    }
  }

  // ---- Conservation ----

  /** A run ends with exactly N questions whose minutes add up to the plan's
      total, which is within the activity's target. */
  lemma MinutesAreConserved(mapping: Mapping, blueprint: Blueprint, policy: PlanningPolicy, bundle: Bundle, services: Services,
                            selected: seq<nat>, questions: seq<Question>)
    requires RunOf(mapping, blueprint, policy, bundle, services, selected, questions)
    ensures |questions| == blueprint.constraints.questionCount
    ensures QuestionMinutes(questions) == PlanCandidates(mapping, blueprint, policy).totalMinutes
            <= blueprint.constraints.targetTotalMinutes
  {
    hide PlanCandidates, ValidCandidates, MeetsMode, OpportunitiesById, QuestionsFor, MappingModel, Compatible, Reserve;
    var p := PlanningProblem(mapping, blueprint, policy);
    RunQuestions(mapping, blueprint, policy, bundle, services, selected, questions);
    MinutesCarryOver(questions, Items(p, selected));
    MinutesAgree(p, selected);
  }

  lemma RequiredMeans(questions: seq<Question>)
    ensures RequiredIds(questions) == [] <==> forall q :: q in questions ==> !q.justificationRequired
  {
    var required := RequiredIds(questions);
    if q :| q in questions && q.justificationRequired {
      assert q.questionId in RequiredSet(questions) && q.questionId in Elems(required);
    }
    if required != [] {
      assert required[0] in Elems(required);
    }
  }

  /** The questions' flags are the flags of the selection. */
  lemma FlagsCarryOver(mapping: Mapping, blueprint: Blueprint, policy: PlanningPolicy, bundle: Bundle, services: Services,
                       selected: seq<nat>, questions: seq<Question>)
    requires RunOf(mapping, blueprint, policy, bundle, services, selected, questions)
    ensures (set q | q in questions :: q.justificationRequired) == Flags(PlanningProblem(mapping, blueprint, policy), selected)
  {
    hide RunOf, ValidCandidates;
    RunQuestions(mapping, blueprint, policy, bundle, services, selected, questions);
    var p := PlanningProblem(mapping, blueprint, policy);
    forall flag ensures flag in (set q | q in questions :: q.justificationRequired) <==> flag in Flags(p, selected) {
      if q :| q in questions && q.justificationRequired == flag {
        var i :| 0 <= i < |questions| && questions[i] == q;
        assert WrittenFor(questions[i], p.Item(selected[i]), bundle);
      }
      if k :| 0 <= k < |selected| && p.Item(selected[k]).justificationRequired == flag {
        assert WrittenFor(questions[k], p.Item(selected[k]), bundle) && questions[k] in questions;
      }
    }
  }

  ghost predicate CitesNothing(questions: seq<Question>) {
    forall q :: q in questions ==> q.sourceIds == [] && q.citationIds == []
  }

  /** The justification flags of the questions agree with the activity's mode. */
  ghost predicate FlagsSuit(mode: JustificationMode, flags: set<bool>) {
    match mode
    case Selected => true in flags
    case All => false !in flags
    case NotRequired => true !in flags
  }

  /** Exactly when a finished run can be assembled: question identifiers differ, no
      question cites a source, and the flags of the selection suit the mode. In a
      closed context nothing is cited, and under SELECTED the flags always suit;
      the "not represented in the plan" refusal never happens. */
  lemma AssemblyOutcome(mapping: Mapping, blueprint: Blueprint, policy: PlanningPolicy, bundle: Bundle, services: Services,
                        selected: seq<nat>, questions: seq<Question>, assessmentId: string)
    requires RunOf(mapping, blueprint, policy, bundle, services, selected, questions)
    ensures var plan, p := PlanCandidates(mapping, blueprint, policy), PlanningProblem(mapping, blueprint, policy);
            var r, mode := Assemble(assessmentId, blueprint, mapping, plan, questions), blueprint.constraints.mode;
            InRange(p, selected)
            && (r.Ok? <==> NoDup(QuestionIds(questions)) && CitesNothing(questions) && FlagsSuit(mode, Flags(p, selected)))
            && (r.Err? ==> r.error == ContractViolation)
            && (bundle.contextMode == Closed ==> CitesNothing(questions))
            && (mode == Selected ==> FlagsSuit(mode, Flags(p, selected)))
  {
    hide RunOf, PlanCandidates, ValidCandidates, Flags, Assemble, AssessmentModel, NoDup;
    RunQuestions(mapping, blueprint, policy, bundle, services, selected, questions);
    FlagsCarryOver(mapping, blueprint, policy, bundle, services, selected, questions);
    PlanCount(mapping, blueprint, policy);
    SelectedNeedsFlag(mapping, blueprint, policy, bundle, services, selected, questions);
    var p := PlanningProblem(mapping, blueprint, policy);
    if bundle.contextMode == Closed {
      forall q | q in questions ensures q.sourceIds == [] && q.citationIds == [] {
        var i :| 0 <= i < |questions| && questions[i] == q;
        assert WrittenFor(questions[i], p.Item(selected[i]), bundle);
      }
    }
    AssembleSpec(assessmentId, blueprint, mapping, PlanCandidates(mapping, blueprint, policy), questions);
  }

  /** What the assembly of N questions depends on. */
  lemma AssembleSpec(assessmentId: string, blueprint: Blueprint, mapping: Mapping, plan: Plan, questions: seq<Question>)
    requires |questions| == plan.questionCount
    ensures var flags := set q | q in questions :: q.justificationRequired;
            var r, mode := Assemble(assessmentId, blueprint, mapping, plan, questions), blueprint.constraints.mode;
            (r.Ok? <==> NoDup(QuestionIds(questions)) && CitesNothing(questions) && FlagsSuit(mode, flags))
            && (r.Err? ==> r.error == if mode == Selected && true !in flags then JustificationNotRepresented else ContractViolation)
  {
    hide CoverageOf, RequiredIds, NoDup;
    var flags := set q | q in questions :: q.justificationRequired;
    RequiredMeans(questions);
    if NoDup(QuestionIds(questions)) {
      AllRequired(questions);
    }
    assert true in flags <==> exists q :: q in questions && q.justificationRequired;
    assert false in flags <==> exists q :: q in questions && !q.justificationRequired;
  }

  /** A template that the activity's response formats admit. */
  ghost predicate Admissible(t: Template, blueprint: Blueprint) {
    exists f :: f in t.responseFormats && f in blueprint.constraints.responseFormats
  }

  /** Every admissible template of the blueprint has this justification flag. */
  ghost predicate Uniform(blueprint: Blueprint, flag: bool) {
    forall d, v, t :: d in blueprint.dimensions && v in d.variants && t in v.templates && Admissible(t, blueprint) ==>
      t.justificationRequired == flag
  }

  lemma CandidateFlag(mapping: Mapping, blueprint: Blueprint, policy: PlanningPolicy, bundle: Bundle, flag: bool, o: Opportunity)
    requires mapping.status == Ready && CheckEvidenceMap(mapping, blueprint, bundle).Pass?
    requires o in mapping.opportunities && IsCandidate(o, blueprint.constraints, policy) && Uniform(blueprint, flag)
    ensures o.justificationRequired == flag
  {
    hide CheckEvidenceMap, CheckOpportunity, CheckEvidenceContext, NoDup, Meets;
    var ix, evidence, byPath := BlueprintIndex(blueprint), EvidenceById(bundle.units), MatchesByPath(mapping.matches);
    AcceptedReadyMap(mapping, blueprint, bundle);
    OpportunitiesPass(mapping.opportunities, mapping.submissionId, ix, byPath, evidence);
    AcceptedOpportunity(o, mapping.submissionId, ix, byPath, evidence);
    DimensionsKeepIndex(EMPTY_INDEX, blueprint.dimensions, blueprint);
    var d, v, t := ix.dimensions[o.dimensionId], ix.variants[o.variantId], ix.templates[o.templateId];
    assert d in blueprint.dimensions && v in d.variants && t in v.templates && Admissible(t, blueprint);
  }

  /** A condition that can be read off the blueprint: where its admissible templates
      agree on the flag, no plan of an accepted map can fail assembly under the mode
      that asks for that flag. */
  lemma UniformTemplatesSuit(mapping: Mapping, blueprint: Blueprint, policy: PlanningPolicy, bundle: Bundle, services: Services,
                             selected: seq<nat>, questions: seq<Question>, flag: bool)
    requires RunOf(mapping, blueprint, policy, bundle, services, selected, questions)
    requires mapping.status == Ready && CheckEvidenceMap(mapping, blueprint, bundle).Pass? && Uniform(blueprint, flag)
    ensures var p, mode := PlanningProblem(mapping, blueprint, policy), blueprint.constraints.mode;
            InRange(p, selected) && Flags(p, selected) <= {flag}
            && (mode == (if flag then All else NotRequired) ==> FlagsSuit(mode, Flags(p, selected)))
  {
    hide CheckEvidenceMap, ValidCandidates, Uniform, QuestionsFor, PlanCandidates, BaseScore, IsCandidate, OpportunitiesById;
    var p := PlanningProblem(mapping, blueprint, policy);
    CandidateFacts(mapping, blueprint, policy);
    forall k | 0 <= k < |selected| ensures p.Item(selected[k]).justificationRequired == flag {
      assert p.scored[selected[k]] in p.scored;
      CandidateFlag(mapping, blueprint, policy, bundle, flag, p.Item(selected[k]));
    }
  }

  /** Question identifiers repeat when two candidates carry one identifier, which
      no validator looks at, and otherwise only by a collision of the hash. */
  lemma QuestionIdsFollowCandidates(mapping: Mapping, blueprint: Blueprint, policy: PlanningPolicy, bundle: Bundle, services: Services,
                                    selected: seq<nat>, questions: seq<Question>)
    requires RunOf(mapping, blueprint, policy, bundle, services, selected, questions)
    ensures NoDup(QuestionIds(questions)) ==> forall i, j :: 0 <= i < j < |questions| ==> questions[i].candidateId != questions[j].candidateId
    ensures !NoDup(QuestionIds(questions)) ==>
              exists i, j :: 0 <= i < j < |questions|
                && services.questionId(bundle.submissionId, questions[i].candidateId) == services.questionId(bundle.submissionId, questions[j].candidateId)
  {
    hide RunOf, ValidCandidates, QuestionFor;
    RunTurns(mapping, blueprint, policy, bundle, services, selected, questions);
    var p := PlanningProblem(mapping, blueprint, policy);
    forall i | 0 <= i < |questions|
      ensures QuestionIds(questions)[i] == services.questionId(bundle.submissionId, questions[i].candidateId)
    {
      assert QuestionFor(p.Item(selected[i]), bundle, services) == Ok(questions[i]);
      QuestionIdIsHashed(p.Item(selected[i]), bundle, services);
    }
  }

  /** Every question of a run comes from the generation for its planned opportunity
      and passed the review of that generation. */
  lemma EveryQuestionWasReviewed(mapping: Mapping, blueprint: Blueprint, policy: PlanningPolicy, bundle: Bundle, services: Services,
                                 selected: seq<nat>, questions: seq<Question>)
    requires RunOf(mapping, blueprint, policy, bundle, services, selected, questions)
    ensures forall q :: q in questions ==>
              exists o :: o in mapping.opportunities && o.opportunityId == q.opportunityId && Reviewed(q, o, services)
  {
    hide RunOf, ValidCandidates, QuestionFor, Reviewed;
    RunTurns(mapping, blueprint, policy, bundle, services, selected, questions);
    RunQuestions(mapping, blueprint, policy, bundle, services, selected, questions);
    var p := PlanningProblem(mapping, blueprint, policy);
    forall q | q in questions
      ensures exists o :: o in mapping.opportunities && o.opportunityId == q.opportunityId && Reviewed(q, o, services)
    {
      var i :| 0 <= i < |questions| && questions[i] == q;
      var o := p.Item(selected[i]);
      assert QuestionFor(o, bundle, services) == Ok(q) && WrittenFor(questions[i], o, bundle);
      QuestionPassedReview(o, bundle, services);
    }
  }

  lemma PlanCount(mapping: Mapping, blueprint: Blueprint, policy: PlanningPolicy)
    ensures PlanCandidates(mapping, blueprint, policy).questionCount == blueprint.constraints.questionCount
  {
    hide Select, Reserve, Items, ValidCandidates, SortedSet, OpportunityEvidence;
  }

  lemma SelectedNeedsFlag(mapping: Mapping, blueprint: Blueprint, policy: PlanningPolicy, bundle: Bundle, services: Services,
                          selected: seq<nat>, questions: seq<Question>)
    requires RunOf(mapping, blueprint, policy, bundle, services, selected, questions)
    ensures var p := PlanningProblem(mapping, blueprint, policy);
            InRange(p, selected) && (blueprint.constraints.mode == Selected ==> true in Flags(p, selected))
  {
    hide PlanCandidates, ValidCandidates, Flags, QuestionsFor, OpportunitiesById;
  }

  /** Every question is listed as requiring justification iff every one does. */
  lemma AllRequired(questions: seq<Question>)
    requires NoDup(QuestionIds(questions))
    ensures (forall q :: q in questions ==> q.questionId in RequiredIds(questions)) <==> forall q :: q in questions ==> q.justificationRequired
  {
    var required := RequiredIds(questions);
    if forall q :: q in questions ==> q.questionId in required {
      forall q | q in questions ensures q.justificationRequired {
        assert q.questionId in Elems(required);
        var other :| other in questions && other.justificationRequired && other.questionId == q.questionId;
        var i, j :| 0 <= i < |questions| && 0 <= j < |questions| && questions[i] == q && questions[j] == other;
        assert QuestionIds(questions)[i] == QuestionIds(questions)[j];
      }
    } else {
      var q :| q in questions && q.questionId !in required;
      assert q.questionId !in Elems(required);
    }
  }

  // ---- The evidence behind a guide ----

  /** `e` is evidence of opportunity `o`, of the variant match on its path and of
      the bundle, and it meets the floor of the blueprint variant on that path. */
  ghost predicate Grounded(e: string, o: Opportunity, mapping: Mapping, blueprint: Blueprint, bundle: Bundle) {
    && o in mapping.opportunities && e in o.evidenceIds
    && (exists m :: m in mapping.matches && m.dimensionId == o.dimensionId && m.variantId == o.variantId && e in m.evidenceIds)
    && exists u: EvidenceUnit, d: Dimension, v: Variant :: OwnUnit(bundle, u) && u.evidenceId == e
         && d in blueprint.dimensions && d.dimensionId == o.dimensionId
         && v in d.variants && v.variantId == o.variantId
         && MeetsFloor(u, v)
  }

  predicate MeetsFloor(u: EvidenceUnit, v: Variant) {
    u.modality in v.requirement.modalities && u.confidence >= v.requirement.minExtractionConfidence
  }

  lemma AcceptedContext(bundle: Bundle)
    requires CheckEvidenceContext(bundle).Pass?
    ensures forall id :: id in EvidenceById(bundle.units) ==> OwnUnit(bundle, EvidenceById(bundle.units)[id])
  {
    UnitsOwned(bundle.units, bundle);
  }

  /** All evidence of an accepted opportunity is grounded. */
  lemma OpportunityEvidenceGrounded(mapping: Mapping, blueprint: Blueprint, bundle: Bundle, o: Opportunity, e: string)
    requires mapping.status == Ready && CheckEvidenceMap(mapping, blueprint, bundle).Pass?
    requires o in mapping.opportunities && e in o.evidenceIds
    ensures Grounded(e, o, mapping, blueprint, bundle)
  {
    hide CheckEvidenceMap, CheckOpportunity, CheckEvidenceContext, OwnUnit, Inherited, NoDup;
    var ix, evidence, byPath := BlueprintIndex(blueprint), EvidenceById(bundle.units), MatchesByPath(mapping.matches);
    AcceptedReadyMap(mapping, blueprint, bundle);
    OpportunitiesPass(mapping.opportunities, mapping.submissionId, ix, byPath, evidence);
    AcceptedOpportunity(o, mapping.submissionId, ix, byPath, evidence);
    AcceptedContext(bundle);
    DimensionsKeepIndex(EMPTY_INDEX, blueprint.dimensions, blueprint);
    var m := byPath[(o.dimensionId, o.variantId)];
    assert m in mapping.matches && e in Elems(o.evidenceIds) && e in Elems(m.evidenceIds);
    assert OwnUnit(bundle, evidence[e]) && MeetsFloor(evidence[e], ix.variants[o.variantId]);
  }

  /** Every evidence identifier of an accepted guide stands in its question, in
      that question's planned opportunity, in the variant match, and in the
      bundle of the same tenant and submission, above the variant's floor. */
  lemma GuideIsGrounded(mapping: Mapping, blueprint: Blueprint, policy: PlanningPolicy, bundle: Bundle, services: Services,
                        selected: seq<nat>, questions: seq<Question>, assessment: Assessment, guide: Guide,
                        item: GuideItem, element: Element, e: string)
    requires RunOf(mapping, blueprint, policy, bundle, services, selected, questions)
    requires mapping.status == Ready && CheckEvidenceMap(mapping, blueprint, bundle).Pass?
    requires assessment.questions == questions
    requires guide.status == Ready && CheckGuide(guide, assessment, bundle).Pass?
    requires item in guide.items && element in item.guide.elements && e in element.evidenceIds
    ensures exists q: Question, o: Opportunity :: q in assessment.questions && q.questionId == item.questionId && e in q.evidenceIds
              && q.opportunityId == o.opportunityId && Grounded(e, o, mapping, blueprint, bundle)
  {
    hide RunOf, CheckEvidenceMap, CheckGuide, Grounded, ValidCandidates;
    var q := GuideQuestion(assessment, guide, bundle, item, element);
    assert e in Elems(element.evidenceIds) && e in Elems(q.evidenceIds);
    RunQuestions(mapping, blueprint, policy, bundle, services, selected, questions);
    var p := PlanningProblem(mapping, blueprint, policy);
    var i :| 0 <= i < |questions| && questions[i] == q;
    var o := p.Item(selected[i]);
    assert WrittenFor(questions[i], o, bundle);
    assert e in Elems(o.evidenceIds);
    OpportunityEvidenceGrounded(mapping, blueprint, bundle, o, e);
  }

  lemma AcceptedReadyGuide(guide: Guide, assessment: Assessment, bundle: Bundle)
    requires guide.status == Ready && CheckGuide(guide, assessment, bundle).Pass?
    ensures Elems(GuideQuestionIds(guide.items)) == Elems(QuestionIds(assessment.questions))
    ensures var byId := QuestionsById(assessment.questions);
            (forall i :: 0 <= i < |guide.items| ==> guide.items[i].questionId in byId)
            && CheckGuideItems(guide.items, byId).Pass?
  {
    hide CheckGuideItems;
    assert forall i :: 0 <= i < |guide.items| ==> GuideQuestionIds(guide.items)[i] in Elems(GuideQuestionIds(guide.items));
  }

  /** The question that a guide item is about holds the item's evidence. */
  lemma GuideQuestion(assessment: Assessment, guide: Guide, bundle: Bundle, item: GuideItem, element: Element) returns (q: Question)
    requires guide.status == Ready && CheckGuide(guide, assessment, bundle).Pass?
    requires item in guide.items && element in item.guide.elements
    ensures q in assessment.questions && q.questionId == item.questionId
    ensures Elems(element.evidenceIds) <= Elems(q.evidenceIds) && Elems(element.sourceIds) <= Elems(q.sourceIds)
  {
    hide CheckGuide, CheckGuideItems;
    AcceptedReadyGuide(guide, assessment, bundle);
    var byId := QuestionsById(assessment.questions);
    GuideItemsWithin(guide.items, byId);
    q := byId[item.questionId];
  }

  /** Guide items and questions correspond one to one. */
  lemma GuideCoversEachQuestionOnce(assessment: Assessment, guide: Guide, bundle: Bundle)
    requires guide.status == Ready && GuideModel(guide) && CheckGuide(guide, assessment, bundle).Pass?
    requires NoDup(QuestionIds(assessment.questions))
    ensures |guide.items| == |assessment.questions|
    ensures multiset(GuideQuestionIds(guide.items)) == multiset(QuestionIds(assessment.questions))
  {
    hide CheckGuide;
    AcceptedReadyGuide(guide, assessment, bundle);
    var x, y := GuideQuestionIds(guide.items), QuestionIds(assessment.questions);
    assert forall id :: (id in x <==> id in Elems(x)) && (id in y <==> id in Elems(y));
    NoDupSameMembers(x, y);
    SameMembers(x, y);
  }

  /** The text a question shows as a literal quotation is part of evidence of the
      same tenant and submission. */
  lemma AnchorsAreDerivable(mapping: Mapping, blueprint: Blueprint, policy: PlanningPolicy, bundle: Bundle, services: Services,
                            selected: seq<nat>, questions: seq<Question>, i: nat, f: Fragment)
    requires RunOf(mapping, blueprint, policy, bundle, services, selected, questions)
    requires mapping.status == Ready && CheckEvidenceMap(mapping, blueprint, bundle).Pass?
    requires i < |questions| && f in questions[i].anchor.fragments
    requires f.transformation in {"LITERAL", "CROP", "CODE_CONTEXT", "ALT_TEXT"}
    ensures exists u: EvidenceUnit :: OwnUnit(bundle, u) && u.evidenceId == f.evidenceId && f.displayText.Some?
              && exists before, after :: (if u.text.Some? then u.text.value else "") == before + f.displayText.value + after
  {
    hide RunOf, CheckEvidenceMap, CheckEvidenceContext, ValidCandidates, OwnUnit;
    RunQuestions(mapping, blueprint, policy, bundle, services, selected, questions);
    assert WrittenFor(questions[i], PlanningProblem(mapping, blueprint, policy).Item(selected[i]), bundle);
    assert Derivable(f, EvidenceById(bundle.units));
    AcceptedReadyMap(mapping, blueprint, bundle);
    AcceptedContext(bundle);
    assert OwnUnit(bundle, EvidenceById(bundle.units)[f.evidenceId]);
  }

  /** Every anchor fragment of a question shows evidence of the question, and so of
      its planned opportunity, its variant match and the own submission. */
  lemma AnchorsAreGrounded(mapping: Mapping, blueprint: Blueprint, policy: PlanningPolicy, bundle: Bundle, services: Services,
                           selected: seq<nat>, questions: seq<Question>, i: nat, f: Fragment)
    requires RunOf(mapping, blueprint, policy, bundle, services, selected, questions)
    requires mapping.status == Ready && CheckEvidenceMap(mapping, blueprint, bundle).Pass?
    requires forall o :: GenerationModel(services.generate(o))
    requires i < |questions| && f in questions[i].anchor.fragments
    ensures f.evidenceId in questions[i].evidenceIds
    ensures exists o: Opportunity :: o.opportunityId == questions[i].opportunityId && Grounded(f.evidenceId, o, mapping, blueprint, bundle)
  {
    hide RunOf, CheckEvidenceMap, ValidCandidates, QuestionFor, Grounded, GenerationModel;
    RunTurns(mapping, blueprint, policy, bundle, services, selected, questions);
    RunQuestions(mapping, blueprint, policy, bundle, services, selected, questions);
    var o := PlanningProblem(mapping, blueprint, policy).Item(selected[i]);
    assert QuestionFor(o, bundle, services) == Ok(questions[i]) && WrittenFor(questions[i], o, bundle);
    AnchorUsesOwnEvidence(o, bundle, services);
    assert f.evidenceId in Elems(questions[i].evidenceIds) && f.evidenceId in Elems(o.evidenceIds);
    OpportunityEvidenceGrounded(mapping, blueprint, bundle, o, f.evidenceId);
  }
}
