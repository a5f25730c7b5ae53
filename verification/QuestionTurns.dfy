/** One turn of the question loop and what assembly makes of the questions, told by
    what was generated and reviewed. */
module QuestionTurns {
  import opened Orders
  import opened Results
  import opened Contracts
  import opened Planner
  import opened PlannerProperties
  import opened Validation
  import opened Acceptance
  import opened QuestionValidation
  import opened Verdicts
  import opened Pipeline
  import opened Provenance
  import opened Coverage

  // ---- One turn ----

  /** The review accepts the candidate: it is READY, for this request and candidate, stays
      within the candidate's evidence and sources, keeps its difficulty and time, reaches
      every threshold and reports no critical failure. */
  ghost predicate ReviewAccepts(r: Review, g: Generation, p: ReviewPolicy)
    requires g.candidate.Some?
  {
    && r.status == Ready && r.review.Some? && r.submissionId == g.submissionId && r.opportunityId == g.opportunityId
    && var s, c := r.review.value, g.candidate.value;
       && s.accepted && s.criticalFailures == [] && s.candidateId == c.candidateId
       && s.difficulty == c.difficulty && s.minutes == c.estimatedMinutes
       && (forall e :: e in s.evidenceIds ==> e in c.evidenceIds) && (forall x :: x in s.sourceIds ==> x in c.sourceIds)
       && s.groundedness >= p.minimumGroundedness && s.anchorSufficiency >= p.minimumAnchorSufficiency
       && s.criterionRelevance >= p.minimumCriterionRelevance && s.answerability >= p.minimumAnswerability
       && s.confidence >= p.escalateBelowConfidence
  }

  /** A turn delivers a question exactly when the model generates a candidate that fits
      the opportunity and the review accepts it. An abstention on either side, declared
      with final diagnostics, ends it as a failed generation or a failed review. */
  lemma TurnOutcome(o: Opportunity, bundle: Bundle, services: Services)
    ensures var g := services.generate(o);
            var v, r := services.review(o, g), QuestionFor(o, bundle, services);
            && (r.Ok? <==> g.status == Ready && g.candidate.Some? && CandidateFits(g.candidate.value, o, bundle, services.screen)
                           && ReviewAccepts(v, g, services.policy))
            && (g.status != Ready && g.candidate.None? && Final(g.diagnostics) ==> r == Err(QuestionGenerationFailed))
            && (g.status == Ready && g.candidate.Some? && CandidateFits(g.candidate.value, o, bundle, services.screen) ==>
                  v.status != Ready && v.review.None? && Final(v.diagnostics) ==> r == Err(QuestionReviewFailed))
  {
    hide CheckGeneration, CheckReview, CandidateFits, Final, SelectedQuestion;
    var g := services.generate(o);
    GenerationAccepted(g, o, bundle, services.screen);
    if g.candidate.Some? {
      ReviewAccepted(services.review(o, g), g, services.policy);
    }
  }

  /** The question of a turn is its candidate, field by field, under an identifier made of
      the submission and the candidate; its score is the mean of the opportunity's
      three measures, at most one. */
  lemma QuestionIsItsCandidate(o: Opportunity, bundle: Bundle, services: Services)
    requires QuestionFor(o, bundle, services).Ok?
    ensures var q, g := QuestionFor(o, bundle, services).value, services.generate(o);
            g.candidate.Some?
            && var c, sum := g.candidate.value, o.activityPriority + o.evidenceFit + o.quality;
               && q.candidateId == c.candidateId && q.questionId == services.questionId(c.submissionId, c.candidateId)
               && q.opportunityId == c.opportunityId == o.opportunityId && q.templateId == c.templateId
               && q.dimensionId == c.dimensionId && q.variantId == c.variantId
               && q.operation == c.operation && q.responseFormat == c.responseFormat && q.difficulty == c.difficulty
               && q.estimatedMinutes == c.estimatedMinutes == o.targetMinutes
               && q.questionText == c.questionText && services.screen(q.questionText) == Pass
               && q.anchor == c.anchor && q.evidenceIds == c.evidenceIds && q.sourceIds == c.sourceIds && q.citationIds == c.citationIds
               && q.justificationRequired == c.justificationRequired && q.guide == c.guide
               && (if sum <= 3.0 then 3.0 * q.planningScore == sum else q.planningScore == 1.0)
  {
    TurnOutcome(o, bundle, services);
    hide CheckGeneration, CheckReview, ReviewAccepts, Derivable, ContextInOrder, EvidenceById, Elems;
  }

  // ---- The assembled assessment ----

  lemma {:induction false} OwnEvidence(os: seq<Opportunity>, dimensionId: string)
    ensures Elems(OpportunityEvidence(InDimension(os, dimensionId)))
         == set o, e | o in os && o.dimensionId == dimensionId && e in o.evidenceIds :: e
  {
    InDimensionMembers(os, dimensionId);
    OpportunityEvidenceMembers(InDimension(os, dimensionId));
  }

  lemma {:induction false} InDimensionMembers(os: seq<Opportunity>, dimensionId: string)
    ensures forall o :: o in InDimension(os, dimensionId) <==> o in os && o.dimensionId == dimensionId
  {
    if os != [] {
      var before, last := os[..|os|-1], os[|os|-1];
      InDimensionMembers(before, dimensionId);
      assert os == before + [last];
    }
  }

  /** The coverage line of every dimension: its variants, the mapped opportunities and the
      questions that lie in it, and the distinct evidence of those opportunities. */
  lemma {:induction false} CoverageLine(dimensions: seq<Dimension>, os: seq<Opportunity>, questions: seq<Question>, i: nat)
    requires i < |dimensions|
    ensures |CoverageOf(dimensions, os, questions)| == |dimensions|
    ensures var line, id := CoverageOf(dimensions, os, questions)[i], dimensions[i].dimensionId;
            && line.dimensionId == id && line.variantCount == |dimensions[i].variants|
            && line.opportunityCount == Count(OpportunityDimensions(os), id)
            && line.selectedCount == Count(QuestionDimensions(questions), id)
            && line.evidenceCount == |set o, e | o in os && o.dimensionId == id && e in o.evidenceIds :: e|
            && line.reusedCount == 0
  {
    hide InDimension, QuestionsInDimension, OpportunityEvidence, Count;
    var id := dimensions[0].dimensionId;
    OwnEvidence(os, id);
    InDimensionCounts(os, id);
    QuestionsInDimensionCounts(questions, id);
    if i > 0 {
      CoverageLine(dimensions[1..], os, questions, i - 1);
    } else if |dimensions| > 1 {
      CoverageLine(dimensions[1..], os, questions, 0);
    }
  }

  ghost predicate Before(ids: seq<string>, a: string, b: string) {
    exists k, l :: 0 <= k < l < |ids| && ids[k] == a && ids[l] == b
  }

  /** The required identifiers stand in the order of their questions. */
  lemma {:induction false} RequiredInOrder(questions: seq<Question>, i: nat, j: nat)
    requires i < j < |questions| && questions[i].justificationRequired && questions[j].justificationRequired
    ensures Before(RequiredIds(questions), questions[i].questionId, questions[j].questionId)
  {
    var ids, rest := RequiredIds(questions), RequiredIds(questions[1..]);
    var first := if questions[0].justificationRequired then [questions[0].questionId] else [];
    assert ids == first + rest;
    hide RequiredIds;
    if i == 0 {
      assert questions[1..][j-1] == questions[j] && questions[j] in questions[1..];
      assert questions[j].questionId in RequiredSet(questions[1..]);
      assert questions[j].questionId in Elems(rest);
      var l :| 0 <= l < |rest| && rest[l] == questions[j].questionId;
      assert ids[0] == questions[0].questionId && ids[l+1] == rest[l];
    } else {
      RequiredInOrder(questions[1..], i - 1, j - 1);
      var k, l :| 0 <= k < l < |rest| && rest[k] == questions[i].questionId && rest[l] == questions[j].questionId;
      assert ids[|first| + k] == rest[k] && ids[|first| + l] == rest[l];
    }
  }

  /** What an assembled assessment holds. */
  lemma AssembledFields(assessmentId: string, blueprint: Blueprint, mapping: Mapping, plan: Plan, questions: seq<Question>)
    requires Assemble(assessmentId, blueprint, mapping, plan, questions).Ok?
    ensures var a := Assemble(assessmentId, blueprint, mapping, plan, questions).value;
            && a.assessmentId == assessmentId && a.submissionId == mapping.submissionId
            && a.questions == questions && a.questionCount == plan.questionCount == |questions|
            && a.mode == blueprint.constraints.mode
            && a.requiredQuestionIds == RequiredIds(questions)
            && (forall id :: id in a.requiredQuestionIds <==> exists q :: q in questions && q.justificationRequired && q.questionId == id)
            && a.coverage == CoverageOf(blueprint.dimensions, mapping.opportunities, questions)
            && forall i, j :: 0 <= i < j < |questions| ==> questions[i].questionId != questions[j].questionId
  {
    hide CoverageOf;
    var a := Assemble(assessmentId, blueprint, mapping, plan, questions).value;
    assert forall id :: id in a.requiredQuestionIds <==> id in Elems(a.requiredQuestionIds);
    forall i, j | 0 <= i < j < |questions| ensures questions[i].questionId != questions[j].questionId {
      assert QuestionIds(questions)[i] != QuestionIds(questions)[j];
    }
  }

  /** An assessment satisfies its model exactly when it has N questions with different
      identifiers that cite nothing, names exactly those that ask for justification,
      and these suit the mode: some under SELECTED, all under ALL, none otherwise. */
  lemma AssessmentAccepted(a: Assessment)
    ensures AssessmentModel(a) <==>
              && |a.questions| == a.questionCount
              && (forall i, j :: 0 <= i < j < |a.questions| ==> a.questions[i].questionId != a.questions[j].questionId)
              && (forall q :: q in a.questions ==> q.sourceIds == [] && q.citationIds == [])
              && (forall id :: id in a.requiredQuestionIds <==> exists q :: q in a.questions && q.justificationRequired && q.questionId == id)
              && match a.mode
                 case Selected => exists q :: q in a.questions && q.justificationRequired
                 case All => forall q :: q in a.questions ==> q.justificationRequired
                 case NotRequired => forall q :: q in a.questions ==> !q.justificationRequired
  {
    hide NoDup, QuestionIds;
    DistinctQuestions(a.questions);
    var ids := a.requiredQuestionIds;
    assert forall id :: id in ids <==> id in Elems(ids);
    assert Elems(ids) == RequiredSet(a.questions) <==>
      forall id :: id in ids <==> exists q :: q in a.questions && q.justificationRequired && q.questionId == id by {
      assert forall id :: id in RequiredSet(a.questions) <==> exists q :: q in a.questions && q.justificationRequired && q.questionId == id;
    }
    if Elems(ids) == RequiredSet(a.questions) {
      assert ids == [] <==> forall q :: q in a.questions ==> !q.justificationRequired by {
        if q :| q in a.questions && q.justificationRequired {
          assert q.questionId in ids;
        }
        if ids != [] {
          assert ids[0] in ids;
        }
      }
    }
  }

  lemma DistinctQuestions(questions: seq<Question>)
    ensures NoDup(QuestionIds(questions)) <==>
              forall i, j :: 0 <= i < j < |questions| ==> questions[i].questionId != questions[j].questionId
    ensures NoDup(QuestionIds(questions)) ==>
              forall q, r :: q in questions && r in questions && q.questionId == r.questionId ==> q == r
  {
    var ids := QuestionIds(questions);
    if NoDup(ids) {
      forall i, j | 0 <= i < j < |questions| ensures questions[i].questionId != questions[j].questionId {
        assert ids[i] != ids[j];
      }
      forall q, r | q in questions && r in questions && q.questionId == r.questionId ensures q == r {
        var i, j :| 0 <= i < |questions| && 0 <= j < |questions| && questions[i] == q && questions[j] == r;
        assert ids[i] == ids[j];
      }
    }
  }

  // ---- Coverage reports ----

  lemma {:induction false} TracesOfMembers(traces: seq<Trace>, dimensionId: string)
    ensures forall t :: t in TracesOf(traces, dimensionId) <==> t in traces && t.dimensionId == dimensionId
  {
    if traces != [] {
      var before, last := traces[..|traces|-1], traces[|traces|-1];
      TracesOfMembers(before, dimensionId);
      assert traces == before + [last];
    }
  }

  /** The positions of the traces of a dimension, of the primary ones, of the reused ones. */
  function Places(traces: seq<Trace>, dimensionId: string): set<nat> {
    set i: nat | i < |traces| && traces[i].dimensionId == dimensionId
  }

  function PrimaryPlaces(traces: seq<Trace>, dimensionId: string): set<nat> {
    set i: nat | i < |traces| && traces[i].dimensionId == dimensionId && traces[i].primary
  }

  function ReusedPlaces(traces: seq<Trace>, dimensionId: string): set<nat> {
    set i: nat | i < |traces| && traces[i].dimensionId == dimensionId && traces[i].reused
  }

  lemma OneMorePlace(before: set<nat>, after: set<nat>, n: nat, here: bool)
    requires n !in before && forall i :: i in after <==> i in before || (here && i == n)
    ensures |after| == |before| + if here then 1 else 0
  {
    assert after == before + if here then {n} else {};
  }

  lemma OneMoreTrace(traces: seq<Trace>, dimensionId: string)
    requires traces != []
    ensures var n := |traces| - 1;
            var before, last := traces[..n], traces[n];
            var own, here := TracesOf(before, dimensionId), last.dimensionId == dimensionId;
            && |TracesOf(traces, dimensionId)| == |own| + (if here then 1 else 0)
            && Primaries(TracesOf(traces, dimensionId)) == Primaries(own) + (if here && last.primary then 1 else 0)
            && ReusedVariants(TracesOf(traces, dimensionId)) == ReusedVariants(own) + (if here && last.reused then 1 else 0)
  {
    var own, last := TracesOf(traces[..|traces|-1], dimensionId), traces[|traces|-1];
    assert (own + [last])[..|own|] == own && own + [] == own;
  }

  lemma {:induction false} TracesArePlaces(traces: seq<Trace>, dimensionId: string)
    ensures var own := TracesOf(traces, dimensionId);
            |own| == |Places(traces, dimensionId)| && Primaries(own) == |PrimaryPlaces(traces, dimensionId)|
            && ReusedVariants(own) == |ReusedPlaces(traces, dimensionId)|
  {
    if traces != [] {
      var n := |traces| - 1;
      var before, last := traces[..n], traces[n];
      var here := last.dimensionId == dimensionId;
      hide TracesOf, Primaries, ReusedVariants;
      TracesArePlaces(before, dimensionId);
      OneMoreTrace(traces, dimensionId);
      OneMorePlace(Places(before, dimensionId), Places(traces, dimensionId), n, here);
      OneMorePlace(PrimaryPlaces(before, dimensionId), PrimaryPlaces(traces, dimensionId), n, here && last.primary);
      OneMorePlace(ReusedPlaces(before, dimensionId), ReusedPlaces(traces, dimensionId), n, here && last.reused);
    }
  }

  /** A report is accepted exactly when its summary has one line per dimension, every trace
      lies in one of them, and every line counts the traces of its dimension: all,
      the primary ones, the reused ones, their variants and their evidence. */
  lemma ReportAccepted(summary: seq<CoverageItem>, traces: seq<Trace>)
    ensures ReportModel(summary, traces) <==>
              && (forall i, j :: 0 <= i < j < |summary| ==> summary[i].dimensionId != summary[j].dimensionId)
              && (forall t :: t in traces ==> exists item :: item in summary && item.dimensionId == t.dimensionId)
              && forall item :: item in summary ==>
                   && item.opportunityCount == |Places(traces, item.dimensionId)|
                   && item.selectedCount == |PrimaryPlaces(traces, item.dimensionId)|
                   && item.reusedCount == |ReusedPlaces(traces, item.dimensionId)|
                   && item.variantCount == |set t | t in traces && t.dimensionId == item.dimensionId :: t.variantId|
                   && item.evidenceCount == |set t, e | t in traces && t.dimensionId == item.dimensionId && e in t.evidenceIds :: e|
  {
    hide Places, PrimaryPlaces, ReusedPlaces, TracesOf, ReusedVariants, Primaries;
    forall item | item in summary
      ensures ItemMatches(item, traces) <==>
                && item.opportunityCount == |Places(traces, item.dimensionId)|
                && item.selectedCount == |PrimaryPlaces(traces, item.dimensionId)|
                && item.reusedCount == |ReusedPlaces(traces, item.dimensionId)|
                && item.variantCount == |set t | t in traces && t.dimensionId == item.dimensionId :: t.variantId|
                && item.evidenceCount == |set t, e | t in traces && t.dimensionId == item.dimensionId && e in t.evidenceIds :: e|
    {
      var own := TracesOf(traces, item.dimensionId);
      TracesOfMembers(traces, item.dimensionId);
      TracesArePlaces(traces, item.dimensionId);
      assert (set t | t in own :: t.variantId) == set t | t in traces && t.dimensionId == item.dimensionId :: t.variantId;
      assert (set t, e | t in own && e in t.evidenceIds :: e)
          == set t, e | t in traces && t.dimensionId == item.dimensionId && e in t.evidenceIds :: e;
    }
    SummaryNames(summary);
  }

  lemma SummaryNames(summary: seq<CoverageItem>)
    ensures forall id :: id in SummaryIds(summary) <==> exists item :: item in summary && item.dimensionId == id
    ensures NoDup(SummaryIds(summary)) <==> forall i, j :: 0 <= i < j < |summary| ==> summary[i].dimensionId != summary[j].dimensionId
  {
    forall id ensures id in SummaryIds(summary) <==> exists item :: item in summary && item.dimensionId == id {
      if item :| item in summary && item.dimensionId == id {
        var k :| 0 <= k < |summary| && summary[k] == item;
        assert SummaryIds(summary)[k] == id;
      }
    }
  }
}
