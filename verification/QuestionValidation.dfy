/** The validators of generated questions, their reviews and evaluation guides,
    with the model validators that those objects have already passed. */
module QuestionValidation {
  import opened Orders
  import opened Results
  import opened Contracts
  import opened Validation

  // ---- Model validators: the parts that the proofs rely on ----

  /** `QuestionCandidate`: the anchor uses the candidate's own evidence. */
  predicate CandidateModel(c: Candidate) {
    forall f :: f in c.anchor.fragments ==> f.evidenceId in c.evidenceIds
  }

  predicate GenerationModel(g: Generation) { g.candidate.Some? ==> CandidateModel(g.candidate.value) }

  /** `EvaluationGuide`: no two items are for one question. */
  predicate GuideModel(g: Guide) { NoDup(GuideQuestionIds(g.items)) }

  function GuideQuestionIds(items: seq<GuideItem>): (ids: seq<string>)
    ensures |ids| == |items| && forall i :: 0 <= i < |ids| ==> ids[i] == items[i].questionId
  {
    seq(|items|, i requires 0 <= i < |items| => items[i].questionId)
  }

  function QuestionIds(questions: seq<Question>): (ids: seq<string>)
    ensures |ids| == |questions| && forall i :: 0 <= i < |ids| ==> ids[i] == questions[i].questionId
  {
    seq(|questions|, i requires 0 <= i < |questions| => questions[i].questionId)
  }

  // ---- Question candidates ----

  predicate Contains(text: string, part: string) {
    exists i :: 0 <= i <= |text| && part <= text[i..]
  }

  predicate IsLiteral(transformation: string) {
    transformation in {"LITERAL", "CROP", "CODE_CONTEXT", "ALT_TEXT"}
  }

  function SourceText(u: EvidenceUnit): string { if u.text.Some? then u.text.value else "" }

  function CheckFragment(f: Fragment, evidence: map<string, EvidenceUnit>): Check {
    if f.evidenceId !in evidence then Fail(InventedEvidenceId)
    else
      var u := evidence[f.evidenceId];
      :- Need(f.locator == u.locator, AnchorNotDerivable);
      :- Need(f.displayText.Some?, AnchorNotDerivable);
      if IsLiteral(f.transformation) then Need(Contains(SourceText(u), f.displayText.value), AnchorNotDerivable)
      else if f.transformation == "TABLE_SLICE" then Need(u.structured, AnchorNotDerivable)
      else Pass
  }

  function CheckFragments(fragments: seq<Fragment>, evidence: map<string, EvidenceUnit>): Check {
    if fragments == [] then Pass
    else
      :- CheckFragment(fragments[0], evidence);
      CheckFragments(fragments[1..], evidence)
  }

  function CheckElements(elements: seq<Element>, evidenceIds: seq<string>, sourceIds: seq<string>): Check {
    if elements == [] then Pass
    else
      :- Need(Elems(elements[0].evidenceIds) <= Elems(evidenceIds), UnauthorizedEvidence);
      :- Need(Elems(elements[0].sourceIds) <= Elems(sourceIds), UnauthorizedSource);
      CheckElements(elements[1..], evidenceIds, sourceIds)
  }

  /** `validate_question_candidate`; `screen` is the text screening. */
  function CheckCandidate(c: Candidate, o: Opportunity, bundle: Bundle, screen: string -> Check): Check {
    var evidence := EvidenceById(bundle.units);
    :- CheckEvidenceContext(bundle);
    :- Need(c.submissionId == bundle.submissionId && c.submissionId == o.submissionId, CrossSubmissionEvidence);
    :- Need(c.opportunityId == o.opportunityId, InventedId);
    :- Need(c.templateId == o.templateId && c.dimensionId == o.dimensionId && c.variantId == o.variantId, BlueprintReferenceMismatch);
    :- Need(c.operation == o.operation, UnsupportedCognitiveOperation);
    :- Need(c.responseFormat in o.responseFormats, ResponseFormatNotAllowed);
    :- Need(c.difficulty == o.difficulty && c.estimatedMinutes == o.targetMinutes
            && c.justificationRequired == o.justificationRequired, BlueprintReferenceMismatch);
    :- Need(c.anchor.structure in o.anchorStructures, AnchorStructureNotAllowed);
    :- Need(Elems(c.evidenceIds) <= Elems(o.evidenceIds), UnauthorizedEvidence);
    :- Need(Elems(c.evidenceIds) <= evidence.Keys, InventedEvidenceId);
    :- CheckElements(c.guide.elements, c.evidenceIds, c.sourceIds);
    :- screen(c.questionText);
    :- CheckFragments(c.anchor.fragments, evidence);
    if bundle.contextMode == Closed then Need(c.sourceIds == [] && c.citationIds == [], UnauthorizedSource)
    else
      :- Need(Elems(c.sourceIds) == Elems(c.citationIds), UnauthorizedSource);
      Need(Elems(c.sourceIds) <= Elems(bundle.sourceIds), UnauthorizedSource)
  }

  function CheckGeneration(g: Generation, o: Opportunity, bundle: Bundle, screen: string -> Check): Check {
    if g.status == Ready then
      :- Need(g.candidate.Some?, ModelOutputInvalid);
      CheckCandidate(g.candidate.value, o, bundle, screen)
    else
      :- Need(g.candidate.None?, PartialAssessmentForbidden);
      CheckCompleteDiagnostics(g.diagnostics, g.status, false)
  }

  // ---- Reviews ----

  predicate BelowThreshold(s: SemanticReview, p: ReviewPolicy) {
    || s.groundedness < p.minimumGroundedness
    || s.anchorSufficiency < p.minimumAnchorSufficiency
    || s.criterionRelevance < p.minimumCriterionRelevance
    || s.answerability < p.minimumAnswerability
    || s.confidence < p.escalateBelowConfidence
  }

  function CheckReview(r: Review, g: Generation, p: ReviewPolicy): Check {
    if r.status == Ready then
      :- Need(r.review.Some? && g.candidate.Some?, ModelOutputInvalid);
      var s, c := r.review.value, g.candidate.value;
      :- Need(s.candidateId == c.candidateId, InventedId);
      :- Need(r.submissionId == g.submissionId && r.opportunityId == g.opportunityId, InventedId);
      :- Need(Elems(s.evidenceIds) <= Elems(c.evidenceIds), UnauthorizedEvidence);
      :- Need(Elems(s.sourceIds) <= Elems(c.sourceIds), UnauthorizedSource);
      :- Need(s.difficulty == c.difficulty && s.minutes == c.estimatedMinutes, BlueprintReferenceMismatch);
      Need(s.accepted ==> !BelowThreshold(s, p) && s.criticalFailures == [], QuestionPolicyViolation)
    else
      :- Need(r.review.None?, PartialAssessmentForbidden);
      CheckCompleteDiagnostics(r.diagnostics, r.status, false)
  }

  // ---- Evaluation guides ----

  function QuestionsById(questions: seq<Question>): (m: map<string, Question>)
    ensures forall id :: id in m ==> m[id] in questions && m[id].questionId == id
    ensures m.Keys == Elems(QuestionIds(questions))
  {
    if questions == [] then map[]
    else
      var before, last := questions[..|questions|-1], questions[|questions|-1];
      assert QuestionIds(questions) == QuestionIds(before) + [last.questionId];
      QuestionsById(before)[last.questionId := last]
  }

  function CheckLevels(levels: seq<Level>, elementIds: set<string>): Check {
    if levels == [] then Pass
    else
      :- Need(Elems(levels[0].elementIds) <= elementIds, InventedId);
      CheckLevels(levels[1..], elementIds)
  }

  function LevelNumbers(levels: seq<Level>): seq<nat> {
    seq(|levels|, i requires 0 <= i < |levels| => levels[i].level)
  }

  function CheckGuideItems(items: seq<GuideItem>, questions: map<string, Question>): Check
    requires forall i :: 0 <= i < |items| ==> items[i].questionId in questions
  {
    if items == [] then Pass
    else
      var q, draft := questions[items[0].questionId], items[0].guide;
      :- Need(LevelNumbers(draft.levels) == [0, 1, 2, 3], GuideIncomplete);
      :- CheckLevels(draft.levels, set e | e in draft.elements :: e.elementId);
      :- CheckElements(draft.elements, q.evidenceIds, q.sourceIds);
      CheckGuideItems(items[1..], questions)
  }

  /** `validate_evaluation_guide`. */
  function CheckGuide(guide: Guide, assessment: Assessment, bundle: Bundle): Check {
    var questions := QuestionsById(assessment.questions);
    :- Need(guide.assessmentId == assessment.assessmentId, InventedId);
    :- Need(guide.submissionId == assessment.submissionId && guide.submissionId == bundle.submissionId, CrossSubmissionEvidence);
    if guide.status == Ready then
      :- Need(Elems(GuideQuestionIds(guide.items)) == questions.Keys, GuideIncomplete);
      assert forall i :: 0 <= i < |guide.items| ==> GuideQuestionIds(guide.items)[i] in Elems(GuideQuestionIds(guide.items));
      CheckGuideItems(guide.items, questions)
    else
      :- Need(guide.items == [], PartialAssessmentForbidden);
      CheckCompleteDiagnostics(guide.diagnostics, guide.status, false)
  }

  // ---- The validators as they are written: loops with early raises ----

  method ValidateElements(elements: seq<Element>, evidenceIds: seq<string>, sourceIds: seq<string>) returns (r: Check)
    ensures r == CheckElements(elements, evidenceIds, sourceIds)
  {
    for i := 0 to |elements|
      invariant CheckElements(elements[i..], evidenceIds, sourceIds) == CheckElements(elements, evidenceIds, sourceIds)
    {
      var el := elements[i];
      assert elements[i..][0] == el && elements[i..][1..] == elements[i+1..];
      if !(Elems(el.evidenceIds) <= Elems(evidenceIds)) {
        return Fail(UnauthorizedEvidence);
      }
      if !(Elems(el.sourceIds) <= Elems(sourceIds)) {
        return Fail(UnauthorizedSource);
      }
    }
    return Pass;
  }

  method ValidateFragments(fragments: seq<Fragment>, evidence: map<string, EvidenceUnit>) returns (r: Check)
    ensures r == CheckFragments(fragments, evidence)
  {
    hide Contains;
    for i := 0 to |fragments|
      invariant CheckFragments(fragments[i..], evidence) == CheckFragments(fragments, evidence)
    {
      var f := fragments[i];
      assert fragments[i..][0] == f && fragments[i..][1..] == fragments[i+1..];
      if f.evidenceId !in evidence {
        return Fail(InventedEvidenceId);
      }
      var u := evidence[f.evidenceId];
      if f.locator != u.locator {
        return Fail(AnchorNotDerivable);
      }
      if f.displayText.None? {
        return Fail(AnchorNotDerivable);
      }
      var sourceText := if u.text.Some? then u.text.value else "";
      if f.transformation in {"LITERAL", "CROP", "CODE_CONTEXT", "ALT_TEXT"} {
        if !Contains(sourceText, f.displayText.value) {
          return Fail(AnchorNotDerivable);
        }
      } else if f.transformation == "TABLE_SLICE" {
        if !u.structured {
          return Fail(AnchorNotDerivable);
        }
      }
    }
    return Pass;
  }

  method ValidateQuestionCandidate(c: Candidate, o: Opportunity, bundle: Bundle, screen: string -> Check) returns (r: Check)
    ensures r == CheckCandidate(c, o, bundle, screen)
  {
    hide CheckEvidenceContext, CheckElements, CheckFragments, EvidenceById, Elems;
    var context := ValidateEvidenceContext(bundle);
    if context.Fail? {
      return context;
    }
    var evidence := EvidenceById(bundle.units);
    if c.submissionId != bundle.submissionId || c.submissionId != o.submissionId {
      return Fail(CrossSubmissionEvidence);
    }
    if c.opportunityId != o.opportunityId {
      return Fail(InventedId);
    }
    if c.templateId != o.templateId || c.dimensionId != o.dimensionId || c.variantId != o.variantId {
      return Fail(BlueprintReferenceMismatch);
    }
    if c.operation != o.operation {
      return Fail(UnsupportedCognitiveOperation);
    }
    if c.responseFormat !in o.responseFormats {
      return Fail(ResponseFormatNotAllowed);
    }
    if c.difficulty != o.difficulty || c.estimatedMinutes != o.targetMinutes || c.justificationRequired != o.justificationRequired {
      return Fail(BlueprintReferenceMismatch);
    }
    if c.anchor.structure !in o.anchorStructures {
      return Fail(AnchorStructureNotAllowed);
    }
    if !(Elems(c.evidenceIds) <= Elems(o.evidenceIds)) {
      return Fail(UnauthorizedEvidence);
    }
    if !(Elems(c.evidenceIds) <= evidence.Keys) {
      return Fail(InventedEvidenceId);
    }
    var elements := ValidateElements(c.guide.elements, c.evidenceIds, c.sourceIds);
    if elements.Fail? {
      return elements;
    }
    var safe := screen(c.questionText);
    if safe.Fail? {
      return safe;
    }
    var fragments := ValidateFragments(c.anchor.fragments, evidence);
    if fragments.Fail? {
      return fragments;
    }
    if bundle.contextMode == Closed {
      if c.sourceIds != [] || c.citationIds != [] {
        return Fail(UnauthorizedSource);
      }
    } else {
      if Elems(c.sourceIds) != Elems(c.citationIds) {
        return Fail(UnauthorizedSource);
      }
      if !(Elems(c.sourceIds) <= Elems(bundle.sourceIds)) {
        return Fail(UnauthorizedSource);
      }
    }
    return Pass;
  }

  method ValidateGenerationResult(g: Generation, o: Opportunity, bundle: Bundle, screen: string -> Check) returns (r: Check)
    ensures r == CheckGeneration(g, o, bundle, screen)
  {
    hide CheckCandidate, CheckCompleteDiagnostics;
    if g.status == Ready {
      if g.candidate.None? {
        return Fail(ModelOutputInvalid);
      }
      r := ValidateQuestionCandidate(g.candidate.value, o, bundle, screen);
    } else {
      if g.candidate.Some? {
        return Fail(PartialAssessmentForbidden);
      }
      r := ValidateCompleteDiagnostics(g.diagnostics, g.status, false);
    }
  }

  method ValidateReviewResult(review: Review, g: Generation, p: ReviewPolicy) returns (r: Check)
    ensures r == CheckReview(review, g, p)
  {
    hide CheckCompleteDiagnostics, Elems;
    if review.status == Ready {
      if review.review.None? || g.candidate.None? {
        return Fail(ModelOutputInvalid);
      }
      var s, c := review.review.value, g.candidate.value;
      if s.candidateId != c.candidateId {
        return Fail(InventedId);
      }
      if review.submissionId != g.submissionId || review.opportunityId != g.opportunityId {
        return Fail(InventedId);
      }
      if !(Elems(s.evidenceIds) <= Elems(c.evidenceIds)) {
        return Fail(UnauthorizedEvidence);
      }
      if !(Elems(s.sourceIds) <= Elems(c.sourceIds)) {
        return Fail(UnauthorizedSource);
      }
      if s.difficulty != c.difficulty || s.minutes != c.estimatedMinutes {
        return Fail(BlueprintReferenceMismatch);
      }
      if s.accepted {
        var below := s.groundedness < p.minimumGroundedness || s.anchorSufficiency < p.minimumAnchorSufficiency
          || s.criterionRelevance < p.minimumCriterionRelevance || s.answerability < p.minimumAnswerability
          || s.confidence < p.escalateBelowConfidence;
        if below || s.criticalFailures != [] {
          return Fail(QuestionPolicyViolation);
        }
      }
      return Pass;
    } else {
      if review.review.Some? {
        return Fail(PartialAssessmentForbidden);
      }
      r := ValidateCompleteDiagnostics(review.diagnostics, review.status, false);
    }
  }

  method ValidateLevels(levels: seq<Level>, elementIds: set<string>) returns (r: Check)
    ensures r == CheckLevels(levels, elementIds)
  {
    for i := 0 to |levels|
      invariant CheckLevels(levels[i..], elementIds) == CheckLevels(levels, elementIds)
    {
      assert levels[i..][0] == levels[i] && levels[i..][1..] == levels[i+1..];
      if !(Elems(levels[i].elementIds) <= elementIds) {
        return Fail(InventedId);
      }
    }
    return Pass;
  }

  method ValidateEvaluationGuide(guide: Guide, assessment: Assessment, bundle: Bundle) returns (r: Check)
    ensures r == CheckGuide(guide, assessment, bundle)
  {
    hide CheckCompleteDiagnostics, CheckLevels, CheckElements;
    if guide.assessmentId != assessment.assessmentId {
      return Fail(InventedId);
    }
    if guide.submissionId != assessment.submissionId || guide.submissionId != bundle.submissionId {
      return Fail(CrossSubmissionEvidence);
    }
    if guide.status != Ready {
      if guide.items != [] {
        return Fail(PartialAssessmentForbidden);
      }
      r := ValidateCompleteDiagnostics(guide.diagnostics, guide.status, false);
      return;
    }
    var questions, items := QuestionsById(assessment.questions), guide.items;
    if Elems(GuideQuestionIds(items)) != questions.Keys {
      return Fail(GuideIncomplete);
    }
    forall i | 0 <= i < |items| ensures items[i].questionId in questions {
      assert GuideQuestionIds(items)[i] in Elems(GuideQuestionIds(items));
    }
    for i := 0 to |items|
      invariant CheckGuideItems(items[i..], questions) == CheckGuideItems(items, questions)
    {
      var q, draft := questions[items[i].questionId], items[i].guide;
      assert items[i..][0] == items[i] && items[i..][1..] == items[i+1..];
      if LevelNumbers(draft.levels) != [0, 1, 2, 3] {
        return Fail(GuideIncomplete);
      }
      var levels := ValidateLevels(draft.levels, set e | e in draft.elements :: e.elementId);
      if levels.Fail? {
        return levels;
      }
      var elements := ValidateElements(draft.elements, q.evidenceIds, q.sourceIds);
      if elements.Fail? {
        return elements;
      }
    }
    return Pass;
  }

  // ---- What acceptance means ----

  /** An element of a guide stays within the given evidence and sources. */
  ghost predicate Within(el: Element, evidenceIds: seq<string>, sourceIds: seq<string>) {
    Elems(el.evidenceIds) <= Elems(evidenceIds) && Elems(el.sourceIds) <= Elems(sourceIds)
  }

  lemma {:induction false} ElementsWithin(elements: seq<Element>, evidenceIds: seq<string>, sourceIds: seq<string>)
    ensures CheckElements(elements, evidenceIds, sourceIds).Pass? <==> forall el :: el in elements ==> Within(el, evidenceIds, sourceIds)
  {
    if elements != [] {
      ElementsWithin(elements[1..], evidenceIds, sourceIds);
      assert CheckElements(elements, evidenceIds, sourceIds).Pass? <==>
        Within(elements[0], evidenceIds, sourceIds) && CheckElements(elements[1..], evidenceIds, sourceIds).Pass?;
      assert forall el :: el in elements <==> el == elements[0] || el in elements[1..];
    }
  }

  /** `part in text` finds a place where the part stands in the text. */
  lemma ContainsMeans(text: string, part: string)
    ensures Contains(text, part) <==> exists before, after :: text == before + part + after
  {
    if i :| 0 <= i <= |text| && part <= text[i..] {
      assert text == text[..i] + part + text[i..][|part|..];
    }
    if before, after :| text == before + part + after {
      assert text[|before|..] == part + after;
    }
  }

  /** The fragment points at known evidence, and the text shown for a literal
      fragment is part of that evidence. */
  ghost predicate Derivable(f: Fragment, evidence: map<string, EvidenceUnit>) {
    && f.evidenceId in evidence && f.locator == evidence[f.evidenceId].locator && f.displayText.Some?
    && (f.transformation in {"LITERAL", "CROP", "CODE_CONTEXT", "ALT_TEXT"} ==>
          exists before, after :: SourceText(evidence[f.evidenceId]) == before + f.displayText.value + after)
    && (f.transformation == "TABLE_SLICE" ==> evidence[f.evidenceId].structured)
  }

  lemma FragmentDerivable(f: Fragment, evidence: map<string, EvidenceUnit>)
    ensures CheckFragment(f, evidence).Pass? <==> Derivable(f, evidence)
  {
    hide Contains;
    if f.evidenceId in evidence && f.displayText.Some? {
      ContainsMeans(SourceText(evidence[f.evidenceId]), f.displayText.value);
    }
    assert f.transformation == "TABLE_SLICE" ==> |f.transformation| == 11;
  }

  lemma {:induction false} FragmentsDerivable(fragments: seq<Fragment>, evidence: map<string, EvidenceUnit>)
    ensures CheckFragments(fragments, evidence).Pass? <==> forall f :: f in fragments ==> Derivable(f, evidence)
  {
    hide CheckFragment, Derivable;
    if fragments != [] {
      FragmentDerivable(fragments[0], evidence);
      FragmentsDerivable(fragments[1..], evidence);
      assert forall f :: f in fragments <==> f == fragments[0] || f in fragments[1..];
    }
  }

  /** The candidate keeps everything its opportunity fixed and narrows the rest. */
  ghost predicate KeepsPlan(c: Candidate, o: Opportunity) {
    && c.submissionId == o.submissionId && c.opportunityId == o.opportunityId && c.templateId == o.templateId
    && c.dimensionId == o.dimensionId && c.variantId == o.variantId && c.operation == o.operation
    && c.difficulty == o.difficulty && c.estimatedMinutes == o.targetMinutes
    && c.justificationRequired == o.justificationRequired
    && c.responseFormat in o.responseFormats && c.anchor.structure in o.anchorStructures
    && Elems(c.evidenceIds) <= Elems(o.evidenceIds)
  }

  /** No course source is used in a closed context, and only cited, allowed ones
      otherwise. */
  ghost predicate SourcesAllowed(c: Candidate, bundle: Bundle) {
    if bundle.contextMode == Closed then c.sourceIds == [] && c.citationIds == []
    else Elems(c.sourceIds) == Elems(c.citationIds) <= Elems(bundle.sourceIds)
  }

  /** A candidate is accepted exactly when the bundle is in order, it keeps its
      plan, everything it cites and shows is grounded, and its text is clean. */
  lemma AcceptedCandidate(c: Candidate, o: Opportunity, bundle: Bundle, screen: string -> Check)
    ensures CheckCandidate(c, o, bundle, screen).Pass? <==>
              && CheckEvidenceContext(bundle).Pass? && c.submissionId == bundle.submissionId && KeepsPlan(c, o)
              && (forall e :: e in c.evidenceIds ==> e in EvidenceById(bundle.units))
              && (forall el :: el in c.guide.elements ==> Within(el, c.evidenceIds, c.sourceIds))
              && (forall f :: f in c.anchor.fragments ==> Derivable(f, EvidenceById(bundle.units)))
              && screen(c.questionText).Pass? && SourcesAllowed(c, bundle)
  {
    hide CheckEvidenceContext, CheckElements, CheckFragments, Derivable, Within, EvidenceById;
    ElementsWithin(c.guide.elements, c.evidenceIds, c.sourceIds);
    FragmentsDerivable(c.anchor.fragments, EvidenceById(bundle.units));
    assert Elems(c.evidenceIds) <= EvidenceById(bundle.units).Keys <==> forall e :: e in c.evidenceIds ==> e in EvidenceById(bundle.units) by {
      assert forall e :: e in c.evidenceIds <==> e in Elems(c.evidenceIds);
    }
  }

  /** A guide draft has the four levels in order, built from its own elements,
      and its elements stay within the question. */
  ghost predicate DraftAdmissible(draft: GuideDraft, q: Question) {
    && LevelNumbers(draft.levels) == [0, 1, 2, 3]
    && (forall level :: level in draft.levels ==> Elems(level.elementIds) <= set e | e in draft.elements :: e.elementId)
    && forall el :: el in draft.elements ==> Within(el, q.evidenceIds, q.sourceIds)
  }

  lemma {:induction false} LevelsKnown(levels: seq<Level>, elementIds: set<string>)
    ensures CheckLevels(levels, elementIds).Pass? <==> forall level :: level in levels ==> Elems(level.elementIds) <= elementIds
  {
    if levels != [] {
      LevelsKnown(levels[1..], elementIds);
      assert forall level :: level in levels <==> level == levels[0] || level in levels[1..];
    }
  }

  lemma {:induction false} GuideItemsWithin(items: seq<GuideItem>, questions: map<string, Question>)
    requires forall i :: 0 <= i < |items| ==> items[i].questionId in questions
    ensures CheckGuideItems(items, questions).Pass? <==>
              forall item :: item in items ==> item.questionId in questions && DraftAdmissible(item.guide, questions[item.questionId])
  {
    hide CheckLevels, CheckElements, LevelNumbers, Within;
    if items != [] {
      var item := items[0];
      var q := questions[item.questionId];
      GuideItemsWithin(items[1..], questions);
      LevelsKnown(item.guide.levels, set e | e in item.guide.elements :: e.elementId);
      ElementsWithin(item.guide.elements, q.evidenceIds, q.sourceIds);
      assert CheckGuideItems(items, questions).Pass? <==> DraftAdmissible(item.guide, q) && CheckGuideItems(items[1..], questions).Pass?;
      assert forall x :: x in items <==> x == item || x in items[1..];
    }
  }
}
