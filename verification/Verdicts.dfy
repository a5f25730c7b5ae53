/** What the validators accept, each as one condition in both directions, and what a
    refusal of an evidence map tells. */
module Verdicts {
  import opened Orders
  import opened Results
  import opened Contracts
  import opened Validation
  import opened Acceptance
  import opened QuestionValidation

  // ---- Fail-closed outputs ----

  /** Diagnostics that end a run: there are some, all are ERROR or CRITICAL, none can be
      retried. */
  predicate Final(diagnostics: seq<Diagnostic>) {
    && diagnostics != []
    && forall d :: d in diagnostics ==> (d.severity == Error || d.severity == Critical) && d.retryable == false
  }

  lemma DiagnosticsAccepted(diagnostics: seq<Diagnostic>, status: Status, matchingCode: bool)
    ensures CheckCompleteDiagnostics(diagnostics, status, matchingCode).Pass? <==>
              Final(diagnostics) && (matchingCode ==> exists d :: d in diagnostics && d.code == OfStatus(status))
    ensures CheckCompleteDiagnostics(diagnostics, status, matchingCode) in {Pass, Fail(DiagnosticIncomplete)}
  {
  }

  /** A map that reports a failure is accepted exactly when it belongs to the bundle,
      exposes nothing, and has final diagnostics of which one names its status. */
  lemma FailedMapAccepted(mapping: Mapping, blueprint: Blueprint, bundle: Bundle)
    requires mapping.status != Ready
    ensures CheckEvidenceMap(mapping, blueprint, bundle).Pass? <==>
              && ContextInOrder(bundle) && mapping.submissionId == bundle.submissionId
              && mapping.claims == [] && mapping.matches == [] && mapping.opportunities == []
              && Final(mapping.diagnostics) && exists d :: d in mapping.diagnostics && d.code == OfStatus(mapping.status)
  {
    hide CheckEvidenceContext, BlueprintIndex, EvidenceById, CheckCompleteDiagnostics, ContextInOrder, Final;
    ContextPasses(bundle);
    DiagnosticsAccepted(mapping.diagnostics, mapping.status, true);
  }

  // ---- Plans ----

  /** A plan is accepted exactly when it is a plan for the submission of the map and
      either presents exactly N primaries, all its identifiers being different ones of
      the map, or presents nothing and has final diagnostics that name its status. */
  lemma PlanAccepted(plan: Plan, mapping: Mapping)
    ensures CheckAssessmentPlan(plan, mapping).Pass? <==>
              && plan.submissionId == mapping.submissionId
              && if plan.status == Ready then
                   var all := plan.selectedIds + plan.reserveIds;
                   && |plan.selectedIds| == plan.questionCount
                   && (forall i, j :: 0 <= i < j < |all| ==> all[i] != all[j])
                   && forall id :: id in all ==> exists o :: o in mapping.opportunities && o.opportunityId == id
                 else
                   && plan.selectedIds == [] && plan.reserveIds == []
                   && Final(plan.diagnostics) && exists d :: d in plan.diagnostics && d.code == OfStatus(plan.status)
  {
    hide CheckCompleteDiagnostics, Final;
    DiagnosticsAccepted(plan.diagnostics, plan.status, true);
    KnownPlanned(plan.selectedIds + plan.reserveIds, mapping.opportunities);
  }

  lemma KnownPlanned(ids: seq<string>, os: seq<Opportunity>)
    ensures Elems(ids) <= Elems(IdsOf(os)) <==> forall id :: id in ids ==> exists o :: o in os && o.opportunityId == id
  {
    assert forall id :: id in ids <==> id in Elems(ids);
    forall id ensures id in Elems(IdsOf(os)) <==> exists o :: o in os && o.opportunityId == id {
      if id in IdsOf(os) {
        var k :| 0 <= k < |os| && IdsOf(os)[k] == id;
        assert os[k] in os;
      }
      if o :| o in os && o.opportunityId == id {
        var k :| 0 <= k < |os| && os[k] == o;
        assert IdsOf(os)[k] == id;
      }
    }
  }

  // ---- Generated questions and their reviews ----

  /** A generation result is accepted exactly when it is READY with a candidate that
      keeps its plan and is grounded, or exposes no candidate and has final diagnostics. */
  lemma GenerationAccepted(g: Generation, o: Opportunity, bundle: Bundle, screen: string -> Check)
    ensures CheckGeneration(g, o, bundle, screen).Pass? <==>
              if g.status == Ready then g.candidate.Some? && CandidateFits(g.candidate.value, o, bundle, screen)
              else g.candidate.None? && Final(g.diagnostics)
  {
    hide CheckCandidate, CheckCompleteDiagnostics, Final, CandidateFits;
    DiagnosticsAccepted(g.diagnostics, g.status, false);
    if g.candidate.Some? {
      CandidateAccepted(g.candidate.value, o, bundle, screen);
    }
  }

  /** What `validate_question_candidate` lets through: the own submission, the plan of the
      opportunity, known evidence of it, a guide and an anchor within that evidence,
      allowed sources and a clean text. */
  ghost predicate CandidateFits(c: Candidate, o: Opportunity, bundle: Bundle, screen: string -> Check) {
    && ContextInOrder(bundle) && c.submissionId == bundle.submissionId == o.submissionId
    && c.opportunityId == o.opportunityId && c.templateId == o.templateId
    && c.dimensionId == o.dimensionId && c.variantId == o.variantId && c.operation == o.operation
    && c.difficulty == o.difficulty && c.estimatedMinutes == o.targetMinutes && c.justificationRequired == o.justificationRequired
    && c.responseFormat in o.responseFormats && c.anchor.structure in o.anchorStructures
    && (forall e :: e in c.evidenceIds ==> e in o.evidenceIds && exists u :: u in bundle.units && u.evidenceId == e)
    && (forall el, e :: el in c.guide.elements && e in el.evidenceIds ==> e in c.evidenceIds)
    && (forall el, s :: el in c.guide.elements && s in el.sourceIds ==> s in c.sourceIds)
    && (forall f :: f in c.anchor.fragments ==> Derivable(f, EvidenceById(bundle.units)))
    && screen(c.questionText) == Pass
    && (bundle.contextMode == Closed ==> c.sourceIds == [] && c.citationIds == [])
    && (bundle.contextMode != Closed ==>
          (forall s :: s in c.sourceIds <==> s in c.citationIds) && forall s :: s in c.sourceIds ==> s in bundle.sourceIds)
  }

  lemma ElementsSpelledOut(elements: seq<Element>, evidenceIds: seq<string>, sourceIds: seq<string>)
    ensures (forall el :: el in elements ==> Within(el, evidenceIds, sourceIds)) <==>
              (forall el, e :: el in elements && e in el.evidenceIds ==> e in evidenceIds)
              && forall el, s :: el in elements && s in el.sourceIds ==> s in sourceIds
  {
    forall el | el in elements
      ensures Within(el, evidenceIds, sourceIds) <==>
                (forall e :: e in el.evidenceIds ==> e in evidenceIds) && forall s :: s in el.sourceIds ==> s in sourceIds
    {
      SubsetMeans(el.evidenceIds, evidenceIds);
      SubsetMeans(el.sourceIds, sourceIds);
    }
  }

  lemma SubsetMeans(a: seq<string>, b: seq<string>)
    ensures Elems(a) <= Elems(b) <==> forall x :: x in a ==> x in b
  {
    assert forall x :: x in a <==> x in Elems(a);
  }

  lemma SourcesSpelledOut(c: Candidate, bundle: Bundle)
    ensures SourcesAllowed(c, bundle) <==>
              && (bundle.contextMode == Closed ==> c.sourceIds == [] && c.citationIds == [])
              && (bundle.contextMode != Closed ==>
                    (forall s :: s in c.sourceIds <==> s in c.citationIds) && forall s :: s in c.sourceIds ==> s in bundle.sourceIds)
  {
    SubsetMeans(c.sourceIds, c.citationIds);
    SubsetMeans(c.citationIds, c.sourceIds);
    SubsetMeans(c.sourceIds, bundle.sourceIds);
  }

  lemma CandidateAccepted(c: Candidate, o: Opportunity, bundle: Bundle, screen: string -> Check)
    ensures CheckCandidate(c, o, bundle, screen).Pass? <==> CandidateFits(c, o, bundle, screen)
  {
    hide CheckCandidate, CheckEvidenceContext, ContextInOrder, Within, Derivable, EvidenceById, SourcesAllowed, Elems;
    AcceptedCandidate(c, o, bundle, screen);
    ContextPasses(bundle);
    ElementsSpelledOut(c.guide.elements, c.evidenceIds, c.sourceIds);
    SourcesSpelledOut(c, bundle);
    SubsetMeans(c.evidenceIds, o.evidenceIds);
    NamedUnits(bundle.units);
  }

  lemma NamedUnits(units: seq<EvidenceUnit>)
    ensures forall id :: id in EvidenceById(units) <==> exists u :: u in units && u.evidenceId == id
  {
    hide EvidenceById;
    forall id ensures id in EvidenceById(units) <==> exists u :: u in units && u.evidenceId == id {
      if id in EvidenceById(units) {
        var u := EvidenceById(units)[id];
      }
    }
  }

  /** A review is accepted exactly when it is READY, reviews this candidate of this
      request within the candidate's evidence, sources, difficulty and time, and accepts
      it only above every threshold and without critical failures; or when it
      abstains with final diagnostics. */
  lemma ReviewAccepted(r: Review, g: Generation, p: ReviewPolicy)
    ensures CheckReview(r, g, p).Pass? <==>
              if r.status != Ready then r.review.None? && Final(r.diagnostics)
              else
                && r.review.Some? && g.candidate.Some?
                && r.submissionId == g.submissionId && r.opportunityId == g.opportunityId
                && var s, c := r.review.value, g.candidate.value;
                   && s.candidateId == c.candidateId && s.difficulty == c.difficulty && s.minutes == c.estimatedMinutes
                   && (forall e :: e in s.evidenceIds ==> e in c.evidenceIds)
                   && (forall x :: x in s.sourceIds ==> x in c.sourceIds)
                   && (s.accepted ==>
                         s.groundedness >= p.minimumGroundedness && s.anchorSufficiency >= p.minimumAnchorSufficiency
                         && s.criterionRelevance >= p.minimumCriterionRelevance && s.answerability >= p.minimumAnswerability
                         && s.confidence >= p.escalateBelowConfidence && s.criticalFailures == [])
  {
    hide CheckCompleteDiagnostics, Final, Elems;
    DiagnosticsAccepted(r.diagnostics, r.status, false);
    if r.review.Some? && g.candidate.Some? {
      SubsetMeans(r.review.value.evidenceIds, g.candidate.value.evidenceIds);
      SubsetMeans(r.review.value.sourceIds, g.candidate.value.sourceIds);
    }
  }

  // ---- Evaluation guides ----

  /** A guide item that fits a question: the levels 0, 1, 2 and 3 in this order over the
      item's own elements, which cite only evidence and sources of the question. */
  ghost predicate ItemFits(item: GuideItem, q: Question) {
    && q.questionId == item.questionId
    && |item.guide.levels| == 4 && (forall k :: 0 <= k < 4 ==> item.guide.levels[k].level == k)
    && (forall level, id :: level in item.guide.levels && id in level.elementIds ==>
          exists el :: el in item.guide.elements && el.elementId == id)
    && (forall el, e :: el in item.guide.elements && e in el.evidenceIds ==> e in q.evidenceIds)
    && (forall el, s :: el in item.guide.elements && s in el.sourceIds ==> s in q.sourceIds)
  }

  lemma FourLevels(numbers: seq<nat>)
    ensures numbers == [0, 1, 2, 3] <==> |numbers| == 4 && forall k :: 0 <= k < 4 ==> numbers[k] == k
  {
    var all: seq<nat> := [0, 1, 2, 3];
    if |numbers| == 4 && forall k :: 0 <= k < 4 ==> numbers[k] == k {
      assert numbers[0] == 0 && numbers[1] == 1 && numbers[2] == 2 && numbers[3] == 3;
      assert numbers == all;
    }
  }

  lemma DraftSpelledOut(item: GuideItem, q: Question)
    requires q.questionId == item.questionId
    ensures DraftAdmissible(item.guide, q) <==> ItemFits(item, q)
  {
    hide Within;
    var draft := item.guide;
    ElementsSpelledOut(draft.elements, q.evidenceIds, q.sourceIds);
    var numbers := LevelNumbers(draft.levels);
    FourLevels(numbers);
    assert |numbers| == |draft.levels| && forall k :: 0 <= k < |numbers| ==> numbers[k] == draft.levels[k].level;
    var own := set e | e in draft.elements :: e.elementId;
    forall level | level in draft.levels
      ensures Elems(level.elementIds) <= own <==>
                forall id :: id in level.elementIds ==> exists el :: el in draft.elements && el.elementId == id
    {
      assert forall id :: id in level.elementIds <==> id in Elems(level.elementIds);
    }
  }

  lemma QuestionsFiled(questions: seq<Question>)
    requires NoDup(QuestionIds(questions))
    ensures forall q :: q in questions ==> q.questionId in QuestionsById(questions) && QuestionsById(questions)[q.questionId] == q
  {
    hide QuestionsById;
    var m := QuestionsById(questions);
    forall q | q in questions ensures q.questionId in m && m[q.questionId] == q {
      var i :| 0 <= i < |questions| && questions[i] == q;
      assert QuestionIds(questions)[i] == q.questionId;
      var j :| 0 <= j < |questions| && questions[j] == m[q.questionId];
      assert QuestionIds(questions)[i] == QuestionIds(questions)[j];
    }
  }

  /** A guide is accepted exactly when it is the guide of this assessment and of this
      submission and either covers the questions exactly, each item fitting its
      question, or has no items and final diagnostics. */
  lemma GuideAccepted(guide: Guide, assessment: Assessment, bundle: Bundle)
    requires NoDup(QuestionIds(assessment.questions))
    ensures CheckGuide(guide, assessment, bundle).Pass? <==>
              && guide.assessmentId == assessment.assessmentId
              && guide.submissionId == assessment.submissionId == bundle.submissionId
              && if guide.status == Ready then
                   && (forall q :: q in assessment.questions ==> exists item :: item in guide.items && item.questionId == q.questionId)
                   && forall item :: item in guide.items ==> exists q :: q in assessment.questions && ItemFits(item, q)
                 else guide.items == [] && Final(guide.diagnostics)
  {
    hide CheckCompleteDiagnostics, Final, CheckGuideItems, DraftAdmissible, ItemFits, QuestionsById, NoDup;
    DiagnosticsAccepted(guide.diagnostics, guide.status, false);
    var questions, items := QuestionsById(assessment.questions), guide.items;
    QuestionsFiled(assessment.questions);
    if guide.status == Ready {
      CoveredMeans(items, assessment.questions);
      if Elems(GuideQuestionIds(items)) == questions.Keys {
        forall i | 0 <= i < |items| ensures items[i].questionId in questions {
          assert GuideQuestionIds(items)[i] in Elems(GuideQuestionIds(items));
        }
        GuideItemsWithin(items, questions);
      }
      forall item, q | item in items && q in assessment.questions && q.questionId == item.questionId
        ensures item.questionId in questions && questions[item.questionId] == q
        ensures DraftAdmissible(item.guide, q) <==> ItemFits(item, q)
      {
        DraftSpelledOut(item, q);
      }
      ItemsName(items, assessment.questions);
    }
  }

  lemma ItemsName(items: seq<GuideItem>, questions: seq<Question>)
    ensures forall item, q :: item in items && q in questions && ItemFits(item, q) ==> q.questionId == item.questionId
  {
  }

  lemma ItemNames(items: seq<GuideItem>)
    ensures forall id :: id in GuideQuestionIds(items) <==> exists item :: item in items && item.questionId == id
  {
    forall id ensures id in GuideQuestionIds(items) <==> exists item :: item in items && item.questionId == id {
      if item :| item in items && item.questionId == id {
        var k :| 0 <= k < |items| && items[k] == item;
        assert GuideQuestionIds(items)[k] == id;
      }
    }
  }

  lemma QuestionNames(questions: seq<Question>)
    ensures forall id :: id in QuestionIds(questions) <==> exists q :: q in questions && q.questionId == id
  {
    forall id ensures id in QuestionIds(questions) <==> exists q :: q in questions && q.questionId == id {
      if q :| q in questions && q.questionId == id {
        var k :| 0 <= k < |questions| && questions[k] == q;
        assert QuestionIds(questions)[k] == id;
      }
    }
  }

  lemma CoveredMeans(items: seq<GuideItem>, questions: seq<Question>)
    ensures Elems(GuideQuestionIds(items)) == QuestionsById(questions).Keys <==>
              (forall q :: q in questions ==> exists item :: item in items && item.questionId == q.questionId)
              && forall item :: item in items ==> exists q :: q in questions && q.questionId == item.questionId
  {
    hide QuestionsById, GuideQuestionIds, QuestionIds, Elems;
    ItemNames(items);
    QuestionNames(questions);
    var x, y := GuideQuestionIds(items), QuestionIds(questions);
    SubsetMeans(x, y);
    SubsetMeans(y, x);
    assert Elems(x) == Elems(y) <==> Elems(x) <= Elems(y) && Elems(y) <= Elems(x);
    assert (forall q :: q in questions ==> q.questionId in y) && forall item :: item in items ==> item.questionId in x;
    assert Elems(y) <= Elems(x) <==> forall q :: q in questions ==> q.questionId in x;
    assert Elems(x) <= Elems(y) <==> forall item :: item in items ==> item.questionId in y;
  }
}
