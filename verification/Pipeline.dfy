/** The stages of a run after planning: questions, assessment and guide, and
    what survives from the evidence map to the end. The model gateway is a pair
    of functions; identifiers that the original hashes are functions too. */
module Pipeline {
  import opened Orders
  import opened Results
  import opened Contracts
  import opened Planner
  import opened Validation
  import opened QuestionValidation

  /** The model calls of the question loop and what is fixed around them. */
  datatype Services = Services(
    generate: Opportunity -> Generation, review: (Opportunity, Generation) -> Review,
    screen: string -> Check, questionId: (string, string) -> string, policy: ReviewPolicy)

  function OpportunitiesById(os: seq<Opportunity>): (m: map<string, Opportunity>)
    ensures forall id :: id in m ==> m[id] in os && m[id].opportunityId == id
    ensures m.Keys == Elems(IdsOf(os))
  {
    if os == [] then map[]
    else
      var before, last := os[..|os|-1], os[|os|-1];
      assert IdsOf(os) == IdsOf(before) + [last.opportunityId];
      OpportunitiesById(before)[last.opportunityId := last]
  }

  function SelectedQuestion(c: Candidate, o: Opportunity, services: Services): Question {
    var mean := (o.activityPriority + o.evidenceFit + o.quality) / 3.0;
    Question(services.questionId(c.submissionId, c.candidateId), c.candidateId, c.opportunityId, c.templateId,
             c.dimensionId, c.variantId, c.operation, c.responseFormat, c.difficulty, c.estimatedMinutes,
             c.questionText, c.anchor, c.evidenceIds, c.sourceIds, c.citationIds, c.justificationRequired, c.guide,
             if mean < 1.0 then mean else 1.0)
  }

  /** One turn of the question loop. */
  function QuestionFor(o: Opportunity, bundle: Bundle, services: Services): Result<Question, ErrorCode> {
    var generation := services.generate(o);
    var check := CheckGeneration(generation, o, bundle, services.screen);
    if check.Fail? then Err(check.error)
    else if generation.candidate.None? then Err(QuestionGenerationFailed)
    else
      var review := services.review(o, generation);
      var reviewed := CheckReview(review, generation, services.policy);
      if reviewed.Fail? then Err(reviewed.error)
      else if review.review.None? || !review.review.value.accepted then Err(QuestionReviewFailed)
      else Ok(SelectedQuestion(generation.candidate.value, o, services))
  }

  function QuestionsFor(ids: seq<string>, os: map<string, Opportunity>, bundle: Bundle, services: Services): Result<seq<Question>, ErrorCode>
    requires forall id :: id in ids ==> id in os
  {
    if ids == [] then Ok([])
    else
      var question :- QuestionFor(os[ids[0]], bundle, services);
      var rest :- QuestionsFor(ids[1..], os, bundle, services);
      Ok([question] + rest)
  }

  /** One turn as it is written: generate, validate, review, validate, select. */
  method BuildQuestion(o: Opportunity, bundle: Bundle, services: Services) returns (r: Result<Question, ErrorCode>)
    ensures r == QuestionFor(o, bundle, services)
  {
    hide CheckGeneration, CheckReview, SelectedQuestion;
    var generation := services.generate(o);
    var generated := ValidateGenerationResult(generation, o, bundle, services.screen);
    if generated.Fail? {
      return Err(generated.error);
    }
    if generation.candidate.None? {
      return Err(QuestionGenerationFailed);
    }
    var review := services.review(o, generation);
    var reviewed := ValidateReviewResult(review, generation, services.policy);
    if reviewed.Fail? {
      return Err(reviewed.error);
    }
    if review.review.None? || !review.review.value.accepted {
      return Err(QuestionReviewFailed);
    }
    return Ok(SelectedQuestion(generation.candidate.value, o, services));
  }

  /** The loop as it is written: it stops at the first refusal. */
  method BuildQuestions(plan: Plan, mapping: Mapping, bundle: Bundle, services: Services) returns (r: Result<seq<Question>, ErrorCode>)
    requires forall id :: id in plan.selectedIds ==> id in OpportunitiesById(mapping.opportunities)
    ensures r == QuestionsFor(plan.selectedIds, OpportunitiesById(mapping.opportunities), bundle, services)
  {
    hide QuestionFor, OpportunitiesById;
    var os, ids := OpportunitiesById(mapping.opportunities), plan.selectedIds;
    var questions: seq<Question> := [];
    ghost var whole := QuestionsFor(ids, os, bundle, services);
    assert ids[0..] == ids && (whole.Ok? ==> [] + whole.value == whole.value);
    for i := 0 to |ids|
      invariant |questions| == i
      invariant var rest := QuestionsFor(ids[i..], os, bundle, services);
                whole == if rest.Ok? then Ok(questions + rest.value) else rest
    {
      assert ids[i..][0] == ids[i] && ids[i..][1..] == ids[i+1..];
      var question := BuildQuestion(os[ids[i]], bundle, services);
      if question.Err? {
        return Err(question.error);
      }
      ghost var rest := QuestionsFor(ids[i+1..], os, bundle, services);
      assert rest.Ok? ==> questions + ([question.value] + rest.value) == questions + [question.value] + rest.value;
      questions := questions + [question.value];
    }
    assert questions + [] == questions;
    return Ok(questions);
  }

  // ---- The assessment ----

  function InDimension(os: seq<Opportunity>, dimensionId: string): seq<Opportunity> {
    if os == [] then []
    else InDimension(os[..|os|-1], dimensionId)
         + if os[|os|-1].dimensionId == dimensionId then [os[|os|-1]] else []
  }

  function QuestionsInDimension(questions: seq<Question>, dimensionId: string): nat {
    if questions == [] then 0
    else QuestionsInDimension(questions[..|questions|-1], dimensionId)
         + if questions[|questions|-1].dimensionId == dimensionId then 1 else 0
  }

  function CoverageOf(dimensions: seq<Dimension>, os: seq<Opportunity>, questions: seq<Question>): seq<CoverageItem> {
    if dimensions == [] then []
    else
      var d := dimensions[0];
      var own := InDimension(os, d.dimensionId);
      [CoverageItem(d.dimensionId, |d.variants|, |own|, QuestionsInDimension(questions, d.dimensionId), 0,
                    |Elems(OpportunityEvidence(own))|)]
      + CoverageOf(dimensions[1..], os, questions)
  }

  function RequiredSet(questions: seq<Question>): set<string> {
    set q | q in questions && q.justificationRequired :: q.questionId
  }

  function RequiredIds(questions: seq<Question>): (ids: seq<string>)
    ensures Elems(ids) == RequiredSet(questions)
  {
    if questions == [] then []
    else
      assert forall q :: q in questions <==> q == questions[0] || q in questions[1..];
      assert RequiredSet(questions) == (if questions[0].justificationRequired then {questions[0].questionId} else {}) + RequiredSet(questions[1..]);
      (if questions[0].justificationRequired then [questions[0].questionId] else []) + RequiredIds(questions[1..])
  }

  /** `Assessment`'s validator on a closed, unapproved assessment and the
      validator of its justification summary. */
  predicate AssessmentModel(a: Assessment) {
    && NoDup(QuestionIds(a.questions))
    && |a.questions| == a.questionCount
    && (forall q :: q in a.questions ==> q.sourceIds == [] && q.citationIds == [])
    && Elems(a.requiredQuestionIds) == RequiredSet(a.questions)
    && (a.mode == Selected ==> a.requiredQuestionIds != [])
    && (a.mode == All ==> forall q :: q in a.questions ==> q.questionId in a.requiredQuestionIds)
    && (a.mode == NotRequired ==> a.requiredQuestionIds == [])
  }

  function Assemble(assessmentId: string, blueprint: Blueprint, mapping: Mapping, plan: Plan, questions: seq<Question>): Result<Assessment, ErrorCode> {
    var required, mode := RequiredIds(questions), blueprint.constraints.mode;
    var a := Assessment(assessmentId, mapping.submissionId, plan.questionCount, questions,
                        CoverageOf(blueprint.dimensions, mapping.opportunities, questions), mode, required);
    if mode == Selected && required == [] then Err(JustificationNotRepresented)
    else if !AssessmentModel(a) then Err(ContractViolation)
    else Ok(a)
  }

  // ---- Each question comes from its planned opportunity ----

  /** What a question keeps of the opportunity it was written for. */
  ghost predicate WrittenFor(q: Question, o: Opportunity, bundle: Bundle) {
    && q.opportunityId == o.opportunityId && q.templateId == o.templateId
    && q.dimensionId == o.dimensionId && q.variantId == o.variantId
    && q.operation == o.operation && q.responseFormat in o.responseFormats
    && q.difficulty == o.difficulty && q.anchor.structure in o.anchorStructures
    && q.estimatedMinutes == o.targetMinutes && q.justificationRequired == o.justificationRequired
    && Elems(q.evidenceIds) <= Elems(o.evidenceIds)
    && (forall f :: f in q.anchor.fragments ==> Derivable(f, EvidenceById(bundle.units)))
    && (bundle.contextMode == Closed ==> q.sourceIds == [] && q.citationIds == [])
  }

  lemma QuestionIsWrittenFor(o: Opportunity, bundle: Bundle, services: Services)
    ensures var r := QuestionFor(o, bundle, services); r.Ok? ==> WrittenFor(r.value, o, bundle)
  {
    hide CheckReview, CheckCandidate, CheckCompleteDiagnostics, EvidenceById, Derivable;
    var r := QuestionFor(o, bundle, services);
    if r.Ok? {
      AcceptedCandidate(services.generate(o).candidate.value, o, bundle, services.screen);
    }
  }

  /** The loop succeeds exactly when every turn does, and then turn by turn; when
      it stops, it stops with the error of the first turn that refuses. */
  lemma {:induction false} QuestionsTurnByTurn(ids: seq<string>, os: map<string, Opportunity>, bundle: Bundle, services: Services)
    requires forall id :: id in ids ==> id in os
    ensures var r := QuestionsFor(ids, os, bundle, services);
            match r
            case Ok(questions) =>
              |questions| == |ids| && forall i :: 0 <= i < |ids| ==> QuestionFor(os[ids[i]], bundle, services) == Ok(questions[i])
            case Err(e) =>
              exists k :: 0 <= k < |ids| && QuestionFor(os[ids[k]], bundle, services) == Err(e)
                && forall j :: 0 <= j < k ==> QuestionFor(os[ids[j]], bundle, services).Ok?
  {
    hide QuestionFor;
    if ids != [] && QuestionFor(os[ids[0]], bundle, services).Ok? {
      var rest := ids[1..];
      QuestionsTurnByTurn(rest, os, bundle, services);
      var r := QuestionsFor(rest, os, bundle, services);
      if r.Err? {
        var k :| 0 <= k < |rest| && QuestionFor(os[rest[k]], bundle, services) == Err(r.error)
                 && forall j :: 0 <= j < k ==> QuestionFor(os[rest[j]], bundle, services).Ok?;
        assert ids[k+1] == rest[k];
        forall j | 0 <= j < k + 1 ensures QuestionFor(os[ids[j]], bundle, services).Ok? {
          assert j > 0 ==> ids[j] == rest[j-1];
        }
      }
    }
  }

  lemma QuestionsAreWrittenFor(ids: seq<string>, os: map<string, Opportunity>, bundle: Bundle, services: Services)
    requires forall id :: id in ids ==> id in os
    ensures var r := QuestionsFor(ids, os, bundle, services);
            r.Ok? ==> |r.value| == |ids| && forall i :: 0 <= i < |ids| ==> WrittenFor(r.value[i], os[ids[i]], bundle)
  {
    hide QuestionFor, WrittenFor, QuestionsFor;
    QuestionsTurnByTurn(ids, os, bundle, services);
    forall o ensures QuestionFor(o, bundle, services).Ok? ==> WrittenFor(QuestionFor(o, bundle, services).value, o, bundle) {
      QuestionIsWrittenFor(o, bundle, services);
    }
  }

  /** Identifiers of questions are those of their candidates, hashed. */
  lemma QuestionIdIsHashed(o: Opportunity, bundle: Bundle, services: Services)
    requires QuestionFor(o, bundle, services).Ok?
    ensures var q := QuestionFor(o, bundle, services).value;
            q.questionId == services.questionId(bundle.submissionId, q.candidateId)
  {
    hide CheckReview, CheckCompleteDiagnostics, KeepsPlan, SourcesAllowed;
    AcceptedCandidate(services.generate(o).candidate.value, o, bundle, services.screen);
  }

  /** Where generated results have passed their model, a question's anchor uses the
      question's own evidence. */
  lemma AnchorUsesOwnEvidence(o: Opportunity, bundle: Bundle, services: Services)
    requires QuestionFor(o, bundle, services).Ok? && GenerationModel(services.generate(o))
    ensures var q := QuestionFor(o, bundle, services).value;
            forall f :: f in q.anchor.fragments ==> f.evidenceId in q.evidenceIds
  {
    hide CheckReview, CheckCandidate, CheckCompleteDiagnostics;
  }

  /** The review of the candidate behind `q` accepts it: it reaches every threshold,
      reports no critical failure, agrees on difficulty and time, and cites no
      evidence beyond the candidate's. */
  ghost predicate Reviewed(q: Question, o: Opportunity, services: Services) {
    var r := services.review(o, services.generate(o));
    r.status == Ready && r.review.Some?
    && var s, policy := r.review.value, services.policy;
       s.accepted && s.criticalFailures == [] && s.candidateId == q.candidateId
       && s.groundedness >= policy.minimumGroundedness && s.anchorSufficiency >= policy.minimumAnchorSufficiency
       && s.criterionRelevance >= policy.minimumCriterionRelevance && s.answerability >= policy.minimumAnswerability
       && s.confidence >= policy.escalateBelowConfidence
       && s.difficulty == q.difficulty && s.minutes == q.estimatedMinutes && Elems(s.evidenceIds) <= Elems(q.evidenceIds)
  }

  lemma QuestionPassedReview(o: Opportunity, bundle: Bundle, services: Services)
    requires QuestionFor(o, bundle, services).Ok?
    ensures Reviewed(QuestionFor(o, bundle, services).value, o, services)
  {
    hide CheckCandidate, CheckCompleteDiagnostics;
  }
}
