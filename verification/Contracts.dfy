/** The contract models that the planner and the validators exchange, with the
    model validators that later proofs rely on. Identifiers, enumeration values
    and prose are strings; scores are exact reals. */
module Contracts {
  import opened Orders
  import opened Results

  // ---- Statuses, diagnostics and validation errors ----

  datatype Status =
    | Ready
    | InsufficientRelevantEvidence
    | InsufficientDistinctOpportunities
    | EvidenceMappingUncertain
    | AssessmentPlanInfeasible
    | ReplacementRequired
    | NeedsReview
    | TechnicalFailure

  datatype Severity = Info | Warning | Error | Critical

  datatype DiagnosticCode = OfStatus(status: Status) | OtherCode(name: string)

  datatype Details =
    | NoDetails
    | MappingStatus(mapped: Status)
    | RelevantCounts(valid: nat, required: nat)
    | DistinctCounts(distinct: nat, required: nat)
    | InfeasibleCounts(valid: nat, required: nat, targetMinutes: nat)

  datatype Diagnostic = Diagnostic(
    code: DiagnosticCode, severity: Severity, evidenceIds: seq<string>,
    retryable: bool, details: Details)

  datatype ErrorCode =
    | DiagnosticIncomplete
    | EvidenceAllowlistMismatch
    | CrossTenantEvidence
    | CrossSubmissionEvidence
    | EvidenceRoleMismatch
    | UnauthorizedSource
    | UnauthorizedEvidence
    | PartialAssessmentForbidden
    | DuplicateId
    | InventedEvidenceId
    | InventedId
    | BlueprintReferenceMismatch
    | UnsupportedCognitiveOperation
    | MappingUncertain
    | InsufficientEvidence
    | EvidenceModalityMismatch
    | EvidenceConfidenceLow
    | PlanDuplicateOpportunity
    | ResponseFormatNotAllowed
    | AnchorStructureNotAllowed
    | AnchorNotDerivable
    | UnsafeText
    | ModelOutputInvalid
    | QuestionPolicyViolation
    | GuideIncomplete
    | ContractViolation
    | QuestionGenerationFailed
    | QuestionReviewFailed
    | JustificationNotRepresented
    | MappingNotPlannable

  // ---- Blueprint ----

  datatype JustificationMode = NotRequired | Selected | All

  datatype ContextMode = Closed | CourseEnriched

  datatype Template = Template(
    templateId: string, operation: string, focus: string, observable: string,
    difficulty: string, targetMinutes: nat, anchorStructures: seq<string>,
    responseFormats: seq<string>, justificationRequired: bool)

  datatype Requirement = Requirement(
    modalities: seq<string>, minDistinctUnits: nat, minExtractionConfidence: real,
    minAlignment: real, crossArtifact: bool)

  datatype Variant = Variant(
    variantId: string, requirement: Requirement, operations: seq<string>,
    templates: seq<Template>)

  datatype Dimension = Dimension(
    dimensionId: string, criterionIds: seq<string>, priority: real,
    variants: seq<Variant>)

  datatype Constraints = Constraints(
    questionCount: nat, targetTotalMinutes: nat, responseFormats: seq<string>,
    mode: JustificationMode)

  datatype Blueprint = Blueprint(
    blueprintId: string, version: nat, dimensions: seq<Dimension>,
    constraints: Constraints)

  function DimensionIds(dimensions: seq<Dimension>): (ids: seq<string>)
    ensures |ids| == |dimensions| && forall i :: 0 <= i < |ids| ==> ids[i] == dimensions[i].dimensionId
  {
    seq(|dimensions|, i requires 0 <= i < |dimensions| => dimensions[i].dimensionId)
  }

  datatype PlanningPolicy = PlanningPolicy(
    minimumQuality: real, minimumFit: real, priorityWeight: real, fitWeight: real,
    qualityWeight: real, dimensionPenalty: real, variantPenalty: real,
    overlapPenalty: real, maximumOverlap: real, maxReserve: nat)

  // ---- Evidence map ----

  datatype Alignment = Alignment(
    dimensionId: string, variantIds: seq<string>, criterionIds: seq<string>)

  datatype Claim = Claim(
    claimId: string, evidenceIds: seq<string>, alignments: seq<Alignment>,
    operations: seq<string>)

  datatype VariantMatch = VariantMatch(
    dimensionId: string, variantId: string, evidenceIds: seq<string>, fit: real,
    confidence: real)

  datatype Opportunity = Opportunity(
    opportunityId: string, templateId: string, submissionId: string,
    dimensionId: string, variantId: string, evidenceIds: seq<string>,
    operation: string, focus: string, observable: string, difficulty: string,
    targetMinutes: nat, anchorStructures: seq<string>,
    responseFormats: seq<string>, activityPriority: real, evidenceFit: real,
    quality: real, justificationRequired: bool)

  datatype Mapping = Mapping(
    submissionId: string, status: Status, claims: seq<Claim>,
    matches: seq<VariantMatch>, opportunities: seq<Opportunity>,
    diagnostics: seq<Diagnostic>)

  function IdsOf(items: seq<Opportunity>): (ids: seq<string>)
    ensures |ids| == |items|
    ensures forall i :: 0 <= i < |items| ==> ids[i] == items[i].opportunityId
  {
    seq(|items|, i requires 0 <= i < |items| => items[i].opportunityId)
  }

  /** The part of `EvidenceMapPatch`'s validator that is about opportunities. */
  predicate MappingModel(mapping: Mapping) {
    && NoDup(IdsOf(mapping.opportunities))
    && (forall o :: o in mapping.opportunities ==> o.submissionId == mapping.submissionId)
    && (mapping.status != Ready ==> mapping.opportunities == [])
  }

  // ---- Plan ----

  /** What the original hashes into a plan identifier. */
  datatype PlanSeed =
    | FailureSeed(submissionId: string, blueprintId: string, version: nat, status: Status, count: nat)
    | ReadySeed(submissionId: string, blueprintId: string, version: nat, selected: seq<string>, reserve: seq<string>)

  datatype Plan = Plan(
    seed: PlanSeed, submissionId: string, blueprintId: string, version: nat,
    status: Status, questionCount: nat, selectedIds: seq<string>,
    reserveIds: seq<string>, totalMinutes: nat, diagnostics: seq<Diagnostic>)

  /** `AssessmentPlan`'s field bounds and its `plan_is_atomic` validator. */
  predicate PlanModel(plan: Plan) {
    && 1 <= plan.questionCount <= 20
    && |plan.selectedIds| <= 20 && |plan.reserveIds| <= 10
    && plan.totalMinutes <= 120
    && (forall d :: d in plan.diagnostics ==> |d.evidenceIds| <= 100)
    && NoDup(plan.selectedIds) && NoDup(plan.reserveIds)
    && (forall id :: id in plan.selectedIds ==> id !in plan.reserveIds)
    && (plan.status == Ready ==> |plan.selectedIds| == plan.questionCount)
    && (plan.status != Ready ==> plan.selectedIds == [] && plan.reserveIds == [])
    && plan.status in {Ready, InsufficientRelevantEvidence, InsufficientDistinctOpportunities,
                       EvidenceMappingUncertain, AssessmentPlanInfeasible}
  }

  // ---- Evidence bundle ----

  datatype EvidenceUnit = EvidenceUnit(
    evidenceId: string, tenantId: string, submissionId: Option<string>,
    artifactId: string, fromSubmission: bool, modality: string,
    confidence: real, locator: string, text: Option<string>, structured: bool)

  datatype Bundle = Bundle(
    tenantId: string, submissionId: string, contextMode: ContextMode,
    allowedEvidenceIds: seq<string>, units: seq<EvidenceUnit>,
    sourceIds: seq<string>)

  // ---- Questions, assessments and guides ----

  datatype Fragment = Fragment(
    evidenceId: string, locator: string, displayText: Option<string>,
    transformation: string)

  datatype Anchor = Anchor(structure: string, fragments: seq<Fragment>)

  datatype Element = Element(elementId: string, evidenceIds: seq<string>, sourceIds: seq<string>)

  datatype Level = Level(level: nat, elementIds: seq<string>)

  datatype GuideDraft = GuideDraft(elements: seq<Element>, levels: seq<Level>)

  datatype Candidate = Candidate(
    candidateId: string, submissionId: string, opportunityId: string,
    templateId: string, dimensionId: string, variantId: string,
    operation: string, responseFormat: string, difficulty: string,
    estimatedMinutes: nat, questionText: string, anchor: Anchor,
    evidenceIds: seq<string>, sourceIds: seq<string>, citationIds: seq<string>,
    justificationRequired: bool, guide: GuideDraft)

  datatype Generation = Generation(
    status: Status, submissionId: string, opportunityId: string,
    candidate: Option<Candidate>, diagnostics: seq<Diagnostic>)

  datatype SemanticReview = SemanticReview(
    candidateId: string, accepted: bool, criticalFailures: seq<string>,
    groundedness: real, anchorSufficiency: real, criterionRelevance: real,
    answerability: real, confidence: real, difficulty: string, minutes: nat,
    evidenceIds: seq<string>, sourceIds: seq<string>)

  datatype Review = Review(
    status: Status, submissionId: string, opportunityId: string,
    review: Option<SemanticReview>, diagnostics: seq<Diagnostic>)

  datatype ReviewPolicy = ReviewPolicy(
    minimumGroundedness: real, minimumAnchorSufficiency: real,
    minimumCriterionRelevance: real, minimumAnswerability: real,
    escalateBelowConfidence: real)

  datatype Question = Question(
    questionId: string, candidateId: string, opportunityId: string,
    templateId: string, dimensionId: string, variantId: string,
    operation: string, responseFormat: string, difficulty: string,
    estimatedMinutes: nat, questionText: string, anchor: Anchor,
    evidenceIds: seq<string>, sourceIds: seq<string>, citationIds: seq<string>,
    justificationRequired: bool, guide: GuideDraft, planningScore: real)

  datatype CoverageItem = CoverageItem(
    dimensionId: string, variantCount: nat, opportunityCount: nat,
    selectedCount: nat, reusedCount: nat, evidenceCount: nat)

  datatype Assessment = Assessment(
    assessmentId: string, submissionId: string, questionCount: nat,
    questions: seq<Question>, coverage: seq<CoverageItem>,
    mode: JustificationMode, requiredQuestionIds: seq<string>)

  datatype GuideItem = GuideItem(questionId: string, guide: GuideDraft)

  datatype Guide = Guide(
    assessmentId: string, submissionId: string, status: Status,
    items: seq<GuideItem>, diagnostics: seq<Diagnostic>)
}
