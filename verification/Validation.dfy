/** The contextual validators. Each check is a function from its inputs to Pass
    or the error it raises first; the loops that run them are methods. */
module Validation {
  import opened Orders
  import opened Results
  import opened Contracts

  type Check = Outcome<ErrorCode>

  // ---- Diagnostics of fail-closed outputs ----

  function CheckCompleteDiagnostics(diagnostics: seq<Diagnostic>, status: Status, matchingCode: bool): Check {
    var matching := exists d :: d in diagnostics && d.code == OfStatus(status);
    :- Need(diagnostics != [], DiagnosticIncomplete);
    :- Need(matchingCode ==> matching, DiagnosticIncomplete);
    Need(forall d :: d in diagnostics ==> d.severity in {Error, Critical} && !d.retryable, DiagnosticIncomplete)
  }

  // ---- Evidence context ----

  function EvidenceById(units: seq<EvidenceUnit>): (m: map<string, EvidenceUnit>)
    ensures forall id :: id in m ==> m[id] in units && m[id].evidenceId == id
    ensures forall u :: u in units ==> u.evidenceId in m
  {
    if units == [] then map[]
    else EvidenceById(units[..|units|-1])[units[|units|-1].evidenceId := units[|units|-1]]
  }

  function CheckUnits(units: seq<EvidenceUnit>, bundle: Bundle): Check {
    if units == [] then Pass
    else
      :- Need(units[0].tenantId == bundle.tenantId, CrossTenantEvidence);
      :- Need(units[0].submissionId == Some(bundle.submissionId), CrossSubmissionEvidence);
      :- Need(units[0].fromSubmission, EvidenceRoleMismatch);
      CheckUnits(units[1..], bundle)
  }

  function CheckEvidenceContext(bundle: Bundle): Check {
    var evidence := EvidenceById(bundle.units);
    :- Need(Elems(bundle.allowedEvidenceIds) == evidence.Keys, EvidenceAllowlistMismatch);
    :- CheckUnits(bundle.units, bundle);
    Need(bundle.contextMode == Closed ==> bundle.sourceIds == [], UnauthorizedSource)
  }

  /** Every unit belongs to the bundle's tenant and submission. */
  ghost predicate OwnUnit(bundle: Bundle, u: EvidenceUnit) {
    u in bundle.units && u.tenantId == bundle.tenantId && u.submissionId == Some(bundle.submissionId) && u.fromSubmission
  }

  lemma {:induction false} UnitsOwned(units: seq<EvidenceUnit>, bundle: Bundle)
    requires forall u :: u in units ==> u in bundle.units
    ensures CheckUnits(units, bundle).Pass? <==> forall u :: u in units ==> OwnUnit(bundle, u)
  {
    if units != [] {
      UnitsOwned(units[1..], bundle);
      assert CheckUnits(units, bundle).Pass? <==> OwnUnit(bundle, units[0]) && CheckUnits(units[1..], bundle).Pass?;
      assert forall u :: u in units <==> u == units[0] || u in units[1..];
    }
  }

  // ---- Blueprint index ----

  datatype Index = Index(
    dimensions: map<string, Dimension>, variants: map<string, Variant>,
    templates: map<string, Template>, variantDimension: map<string, string>,
    templateVariant: map<string, string>)

  const EMPTY_INDEX := Index(map[], map[], map[], map[], map[])

  function AddTemplates(ix: Index, variantId: string, templates: seq<Template>): Index
    decreases templates
  {
    if templates == [] then ix
    else
      var t := templates[0];
      AddTemplates(ix.(templates := ix.templates[t.templateId := t],
                       templateVariant := ix.templateVariant[t.templateId := variantId]), variantId, templates[1..])
  }

  function AddVariants(ix: Index, dimensionId: string, variants: seq<Variant>): Index
    decreases variants
  {
    if variants == [] then ix
    else
      var v := variants[0];
      var added := ix.(variants := ix.variants[v.variantId := v],
                       variantDimension := ix.variantDimension[v.variantId := dimensionId]);
      AddVariants(AddTemplates(added, v.variantId, v.templates), dimensionId, variants[1..])
  }

  function AddDimensions(ix: Index, dimensions: seq<Dimension>): Index
    decreases dimensions
  {
    if dimensions == [] then ix
    else
      var d := dimensions[0];
      AddDimensions(AddVariants(ix.(dimensions := ix.dimensions[d.dimensionId := d]), d.dimensionId, d.variants), dimensions[1..])
  }

  function BlueprintIndex(blueprint: Blueprint): Index { AddDimensions(EMPTY_INDEX, blueprint.dimensions) }

  /** The index as it is built: nested loops that fill dictionaries. */
  method BuildIndex(blueprint: Blueprint) returns (ix: Index)
    ensures ix == BlueprintIndex(blueprint)
  {
    ix := EMPTY_INDEX;
    for i := 0 to |blueprint.dimensions|
      invariant AddDimensions(ix, blueprint.dimensions[i..]) == BlueprintIndex(blueprint)
    {
      var d := blueprint.dimensions[i];
      assert blueprint.dimensions[i..][0] == d && blueprint.dimensions[i..][1..] == blueprint.dimensions[i+1..];
      ix := ix.(dimensions := ix.dimensions[d.dimensionId := d]);
      ghost var target := AddVariants(ix, d.dimensionId, d.variants);
      for j := 0 to |d.variants|
        invariant AddVariants(ix, d.dimensionId, d.variants[j..]) == target
      {
        var v := d.variants[j];
        assert d.variants[j..][0] == v && d.variants[j..][1..] == d.variants[j+1..];
        ix := ix.(variants := ix.variants[v.variantId := v],
                  variantDimension := ix.variantDimension[v.variantId := d.dimensionId]);
        ghost var inner := AddTemplates(ix, v.variantId, v.templates);
        for k := 0 to |v.templates|
          invariant AddTemplates(ix, v.variantId, v.templates[k..]) == inner
        {
          var t := v.templates[k];
          assert v.templates[k..][0] == t && v.templates[k..][1..] == v.templates[k+1..];
          ix := ix.(templates := ix.templates[t.templateId := t],
                    templateVariant := ix.templateVariant[t.templateId := v.variantId]);
        }
      }
    }
  }

  /** Index entries are blueprint objects filed under their own identifiers. */
  ghost predicate IndexOf(ix: Index, blueprint: Blueprint) {
    && (forall id :: id in ix.dimensions ==> ix.dimensions[id] in blueprint.dimensions && ix.dimensions[id].dimensionId == id)
    && (forall id :: id in ix.variants ==> ix.variants[id].variantId == id && id in ix.variantDimension)
    && (forall id :: id in ix.templates ==> ix.templates[id].templateId == id && id in ix.templateVariant)
  }

  lemma {:induction false} TemplatesKeepIndex(ix: Index, variantId: string, templates: seq<Template>, blueprint: Blueprint)
    requires IndexOf(ix, blueprint)
    ensures IndexOf(AddTemplates(ix, variantId, templates), blueprint)
    decreases templates
  {
    if templates != [] {
      var t := templates[0];
      TemplatesKeepIndex(ix.(templates := ix.templates[t.templateId := t],
                             templateVariant := ix.templateVariant[t.templateId := variantId]), variantId, templates[1..], blueprint);
    }
  }

  lemma {:induction false} VariantsKeepIndex(ix: Index, dimensionId: string, variants: seq<Variant>, blueprint: Blueprint)
    requires IndexOf(ix, blueprint)
    ensures IndexOf(AddVariants(ix, dimensionId, variants), blueprint)
    decreases variants
  {
    if variants != [] {
      var v := variants[0];
      var added := ix.(variants := ix.variants[v.variantId := v],
                       variantDimension := ix.variantDimension[v.variantId := dimensionId]);
      TemplatesKeepIndex(added, v.variantId, v.templates, blueprint);
      VariantsKeepIndex(AddTemplates(added, v.variantId, v.templates), dimensionId, variants[1..], blueprint);
    }
  }

  lemma {:induction false} DimensionsKeepIndex(ix: Index, dimensions: seq<Dimension>, blueprint: Blueprint)
    requires IndexOf(ix, blueprint) && (forall d :: d in dimensions ==> d in blueprint.dimensions)
    ensures IndexOf(AddDimensions(ix, dimensions), blueprint)
    decreases dimensions
  {
    if dimensions != [] {
      var d := dimensions[0];
      var added := ix.(dimensions := ix.dimensions[d.dimensionId := d]);
      VariantsKeepIndex(added, d.dimensionId, d.variants, blueprint);
      DimensionsKeepIndex(AddVariants(added, d.dimensionId, d.variants), dimensions[1..], blueprint);
    }
  }

  // ---- Evidence map: claims ----

  function CheckVariantIds(variantIds: seq<string>, dimensionId: string, ix: Index): Check {
    if variantIds == [] then Pass
    else
      :- Need(variantIds[0] in ix.variants, InventedId);
      :- Need(variantIds[0] in ix.variantDimension && ix.variantDimension[variantIds[0]] == dimensionId, BlueprintReferenceMismatch);
      CheckVariantIds(variantIds[1..], dimensionId, ix)
  }

  function CheckAlignments(alignments: seq<Alignment>, ix: Index): Check {
    if alignments == [] then Pass
    else
      var a := alignments[0];
      :- Need(a.dimensionId in ix.dimensions, InventedId);
      :- Need(Elems(a.criterionIds) <= Elems(ix.dimensions[a.dimensionId].criterionIds), BlueprintReferenceMismatch);
      :- CheckVariantIds(a.variantIds, a.dimensionId, ix);
      CheckAlignments(alignments[1..], ix)
  }

  /** The operations of every variant that the alignments name. */
  function AllowedOperations(alignments: seq<Alignment>, ix: Index): set<string> {
    set a, v, op | a in alignments && v in a.variantIds && v in ix.variants && op in ix.variants[v].operations :: op
  }

  function VariantOperations(variantIds: seq<string>, ix: Index): set<string> {
    set v, op | v in variantIds && v in ix.variants && op in ix.variants[v].operations :: op
  }

  function CheckClaim(claim: Claim, ix: Index, evidence: map<string, EvidenceUnit>): Check {
    var allowed := AllowedOperations(claim.alignments, ix);
    :- Need(forall id :: id in claim.evidenceIds ==> id in evidence, InventedEvidenceId);
    :- CheckAlignments(claim.alignments, ix);
    Need(Elems(claim.operations) <= allowed, UnsupportedCognitiveOperation)
  }

  function CheckClaims(claims: seq<Claim>, ix: Index, evidence: map<string, EvidenceUnit>): Check {
    if claims == [] then Pass
    else
      :- CheckClaim(claims[0], ix, evidence);
      CheckClaims(claims[1..], ix, evidence)
  }

  // ---- Evidence map: variant matches ----

  /** Evidence that satisfies a variant's requirement. */
  function CheckRequirement(ids: seq<string>, r: Requirement, evidence: map<string, EvidenceUnit>): Check
    requires forall id :: id in ids ==> id in evidence
  {
    var distinct := |Elems(ids)|;
    :- Need(distinct >= r.minDistinctUnits, InsufficientEvidence);
    :- Need(forall id :: id in ids ==> evidence[id].modality in r.modalities, EvidenceModalityMismatch);
    :- Need(forall id :: id in ids ==> evidence[id].confidence >= r.minExtractionConfidence, EvidenceConfidenceLow);
    Need(r.crossArtifact ==> |set id | id in ids :: evidence[id].artifactId| >= 2, InsufficientEvidence)
  }

  function CheckMatch(m: VariantMatch, ix: Index, evidence: map<string, EvidenceUnit>): Check {
    var known := m.dimensionId in ix.dimensions && m.variantId in ix.variants;
    :- Need(known, InventedId);
    :- Need(m.variantId in ix.variantDimension && ix.variantDimension[m.variantId] == m.dimensionId, BlueprintReferenceMismatch);
    :- Need(forall id :: id in m.evidenceIds ==> id in evidence, InventedEvidenceId);
    :- Need(NoDup(m.evidenceIds), DuplicateId);
    var r := ix.variants[m.variantId].requirement;
    :- Need(m.confidence >= r.minAlignment, MappingUncertain);
    CheckRequirement(m.evidenceIds, r, evidence)
  }

  function CheckMatches(matches: seq<VariantMatch>, ix: Index, evidence: map<string, EvidenceUnit>): Check {
    if matches == [] then Pass
    else
      :- CheckMatch(matches[0], ix, evidence);
      CheckMatches(matches[1..], ix, evidence)
  }

  function MatchPath(m: VariantMatch): string { m.dimensionId + ":" + m.variantId }

  function MatchPaths(matches: seq<VariantMatch>): seq<string> {
    seq(|matches|, i requires 0 <= i < |matches| => MatchPath(matches[i]))
  }

  function MatchesByPath(matches: seq<VariantMatch>): (m: map<(string, string), VariantMatch>)
    ensures forall k :: k in m ==> m[k] in matches && k == (m[k].dimensionId, m[k].variantId)
  {
    if matches == [] then map[]
    else
      var last := matches[|matches|-1];
      MatchesByPath(matches[..|matches|-1])[(last.dimensionId, last.variantId) := last]
  }

  // ---- Evidence map: opportunities ----

  predicate Inherited(o: Opportunity, t: Template, d: Dimension) {
    && o.focus == t.focus && o.observable == t.observable && o.difficulty == t.difficulty
    && o.targetMinutes == t.targetMinutes && o.anchorStructures == t.anchorStructures
    && o.responseFormats == t.responseFormats && o.justificationRequired == t.justificationRequired
    && o.activityPriority == d.priority
  }

  function CheckOpportunity(o: Opportunity, submissionId: string, ix: Index,
                            matches: map<(string, string), VariantMatch>, evidence: map<string, EvidenceUnit>): Check {
    var known := o.dimensionId in ix.dimensions && o.variantId in ix.variants && o.templateId in ix.templates;
    :- Need(o.submissionId == submissionId, CrossSubmissionEvidence);
    :- Need(known, InventedId);
    var d, v, t := ix.dimensions[o.dimensionId], ix.variants[o.variantId], ix.templates[o.templateId];
    :- Need(v in d.variants && t in v.templates, BlueprintReferenceMismatch);
    :- Need(o.variantId in ix.variantDimension && ix.variantDimension[o.variantId] == o.dimensionId
            && o.templateId in ix.templateVariant && ix.templateVariant[o.templateId] == o.variantId, BlueprintReferenceMismatch);
    :- Need((o.dimensionId, o.variantId) in matches, BlueprintReferenceMismatch);
    var m := matches[(o.dimensionId, o.variantId)];
    :- Need(forall id :: id in o.evidenceIds ==> id in evidence, InventedEvidenceId);
    :- Need(Elems(o.evidenceIds) <= Elems(m.evidenceIds), UnauthorizedEvidence);
    :- Need(o.evidenceFit == m.fit, BlueprintReferenceMismatch);
    :- Need(o.operation in v.operations, UnsupportedCognitiveOperation);
    :- Need(o.operation == t.operation, UnsupportedCognitiveOperation);
    :- Need(Inherited(o, t, d), BlueprintReferenceMismatch);
    :- Need(NoDup(o.evidenceIds), DuplicateId);
    CheckRequirement(o.evidenceIds, v.requirement, evidence)
  }

  function CheckOpportunities(os: seq<Opportunity>, submissionId: string, ix: Index,
                              matches: map<(string, string), VariantMatch>, evidence: map<string, EvidenceUnit>): Check {
    if os == [] then Pass
    else
      :- CheckOpportunity(os[0], submissionId, ix, matches, evidence);
      CheckOpportunities(os[1..], submissionId, ix, matches, evidence)
  }

  function ClaimIds(claims: seq<Claim>): seq<string> {
    seq(|claims|, i requires 0 <= i < |claims| => claims[i].claimId)
  }

  /** The specification of `validate_evidence_map`. */
  function CheckEvidenceMap(mapping: Mapping, blueprint: Blueprint, bundle: Bundle): Check {
    var ix, evidence := BlueprintIndex(blueprint), EvidenceById(bundle.units);
    :- CheckEvidenceContext(bundle);
    :- Need(mapping.submissionId == bundle.submissionId, CrossSubmissionEvidence);
    if mapping.status != Ready then
      :- Need(mapping.opportunities == [] && mapping.claims == [] && mapping.matches == [], PartialAssessmentForbidden);
      CheckCompleteDiagnostics(mapping.diagnostics, mapping.status, true)
    else
      :- Need(NoDup(ClaimIds(mapping.claims)), DuplicateId);
      :- Need(NoDup(MatchPaths(mapping.matches)), DuplicateId);
      :- CheckClaims(mapping.claims, ix, evidence);
      :- CheckMatches(mapping.matches, ix, evidence);
      CheckOpportunities(mapping.opportunities, mapping.submissionId, ix, MatchesByPath(mapping.matches), evidence)
  }

  /** One claim as it is checked: nested loops that widen the allowed operations
      alignment by alignment and stop at the first violation. */
  method ValidateClaim(claim: Claim, ix: Index, evidence: map<string, EvidenceUnit>) returns (r: Check)
    ensures r == CheckClaim(claim, ix, evidence)
  {
    if exists id :: id in claim.evidenceIds && id !in evidence {
      return Fail(InventedEvidenceId);
    }
    hide AllowedOperations, VariantOperations;
    var allowed: set<string> := {};
    var alignments := claim.alignments;
    NothingAllowed(ix);
    for i := 0 to |alignments|
      invariant CheckAlignments(alignments[i..], ix) == CheckAlignments(alignments, ix)
      invariant allowed == AllowedOperations(alignments[..i], ix)
    {
      var a := alignments[i];
      assert alignments[i..][0] == a && alignments[i..][1..] == alignments[i+1..];
      if a.dimensionId !in ix.dimensions {
        return Fail(InventedId);
      }
      if !(Elems(a.criterionIds) <= Elems(ix.dimensions[a.dimensionId].criterionIds)) {
        return Fail(BlueprintReferenceMismatch);
      }
      for j := 0 to |a.variantIds|
        invariant CheckVariantIds(a.variantIds[j..], a.dimensionId, ix) == CheckVariantIds(a.variantIds, a.dimensionId, ix)
        invariant allowed == AllowedOperations(alignments[..i], ix) + VariantOperations(a.variantIds[..j], ix)
      {
        var v := a.variantIds[j];
        assert a.variantIds[j..][0] == v && a.variantIds[j..][1..] == a.variantIds[j+1..];
        if v !in ix.variants {
          return Fail(InventedId);
        }
        if v !in ix.variantDimension || ix.variantDimension[v] != a.dimensionId {
          return Fail(BlueprintReferenceMismatch);
        }
        OneMoreVariant(a.variantIds, j, ix);
        allowed := allowed + Elems(ix.variants[v].operations);
      }
      assert a.variantIds[..|a.variantIds|] == a.variantIds;
      OneMoreAlignment(alignments, i, ix);
    }
    assert alignments[..|alignments|] == alignments;
    return Need(Elems(claim.operations) <= allowed, UnsupportedCognitiveOperation);
  }

  lemma NothingAllowed(ix: Index)
    ensures AllowedOperations([], ix) == {}
    ensures VariantOperations([], ix) == {}
  {
  }

  lemma OneMoreVariant(variantIds: seq<string>, j: nat, ix: Index)
    requires j < |variantIds| && variantIds[j] in ix.variants
    ensures VariantOperations(variantIds[..j+1], ix)
              == VariantOperations(variantIds[..j], ix) + Elems(ix.variants[variantIds[j]].operations)
  {
    assert variantIds[..j+1] == variantIds[..j] + [variantIds[j]];
  }

  lemma OneMoreAlignment(alignments: seq<Alignment>, i: nat, ix: Index)
    requires i < |alignments|
    ensures AllowedOperations(alignments[..i+1], ix)
              == AllowedOperations(alignments[..i], ix) + VariantOperations(alignments[i].variantIds, ix)
  {
    assert alignments[..i+1] == alignments[..i] + [alignments[i]];
  }

  method ValidateCompleteDiagnostics(diagnostics: seq<Diagnostic>, status: Status, matchingCode: bool) returns (r: Check)
    ensures r == CheckCompleteDiagnostics(diagnostics, status, matchingCode)
  {
    if diagnostics == [] {
      return Fail(DiagnosticIncomplete);
    }
    if matchingCode && !(exists d :: d in diagnostics && d.code == OfStatus(status)) {
      return Fail(DiagnosticIncomplete);
    }
    for i := 0 to |diagnostics|
      invariant forall k :: 0 <= k < i ==> diagnostics[k].severity in {Error, Critical} && !diagnostics[k].retryable
    {
      if diagnostics[i].severity != Error && diagnostics[i].severity != Critical {
        return Fail(DiagnosticIncomplete);
      }
      if diagnostics[i].retryable {
        return Fail(DiagnosticIncomplete);
      }
    }
    return Pass;
  }

  method ValidateEvidenceContext(bundle: Bundle) returns (r: Check)
    ensures r == CheckEvidenceContext(bundle)
  {
    if Elems(bundle.allowedEvidenceIds) != EvidenceById(bundle.units).Keys {
      return Fail(EvidenceAllowlistMismatch);
    }
    for i := 0 to |bundle.units|
      invariant CheckUnits(bundle.units[i..], bundle) == CheckUnits(bundle.units, bundle)
    {
      var u := bundle.units[i];
      assert bundle.units[i..][0] == u && bundle.units[i..][1..] == bundle.units[i+1..];
      if u.tenantId != bundle.tenantId {
        return Fail(CrossTenantEvidence);
      }
      if u.submissionId != Some(bundle.submissionId) {
        return Fail(CrossSubmissionEvidence);
      }
      if !u.fromSubmission {
        return Fail(EvidenceRoleMismatch);
      }
    }
    if bundle.contextMode == Closed && bundle.sourceIds != [] {
      return Fail(UnauthorizedSource);
    }
    return Pass;
  }

  /** The evidence requirement as it is checked for a match and for an opportunity. */
  method ValidateRequirement(ids: seq<string>, requirement: Requirement, evidence: map<string, EvidenceUnit>) returns (r: Check)
    requires forall id :: id in ids ==> id in evidence
    ensures r == CheckRequirement(ids, requirement, evidence)
  {
    if |Elems(ids)| < requirement.minDistinctUnits {
      return Fail(InsufficientEvidence);
    }
    if exists id :: id in ids && evidence[id].modality !in requirement.modalities {
      return Fail(EvidenceModalityMismatch);
    }
    if exists id :: id in ids && evidence[id].confidence < requirement.minExtractionConfidence {
      return Fail(EvidenceConfidenceLow);
    }
    if requirement.crossArtifact && |set id | id in ids :: evidence[id].artifactId| < 2 {
      return Fail(InsufficientEvidence);
    }
    return Pass;
  }

  /** One variant match as it is checked. */
  method ValidateMatch(m: VariantMatch, ix: Index, evidence: map<string, EvidenceUnit>) returns (r: Check)
    ensures r == CheckMatch(m, ix, evidence)
  {
    hide CheckRequirement, NoDup;
    if m.dimensionId !in ix.dimensions || m.variantId !in ix.variants {
      return Fail(InventedId);
    }
    if m.variantId !in ix.variantDimension || ix.variantDimension[m.variantId] != m.dimensionId {
      return Fail(BlueprintReferenceMismatch);
    }
    if exists id :: id in m.evidenceIds && id !in evidence {
      return Fail(InventedEvidenceId);
    }
    if !NoDup(m.evidenceIds) {
      return Fail(DuplicateId);
    }
    var requirement := ix.variants[m.variantId].requirement;
    if m.confidence < requirement.minAlignment {
      return Fail(MappingUncertain);
    }
    r := ValidateRequirement(m.evidenceIds, requirement, evidence);
  }

  /** One opportunity as it is checked. */
  method ValidateOpportunity(o: Opportunity, submissionId: string, ix: Index,
                             matches: map<(string, string), VariantMatch>, evidence: map<string, EvidenceUnit>) returns (r: Check)
    ensures r == CheckOpportunity(o, submissionId, ix, matches, evidence)
  {
    hide CheckRequirement, NoDup;
    if o.submissionId != submissionId {
      return Fail(CrossSubmissionEvidence);
    }
    if o.dimensionId !in ix.dimensions || o.variantId !in ix.variants || o.templateId !in ix.templates {
      return Fail(InventedId);
    }
    var d, v, t := ix.dimensions[o.dimensionId], ix.variants[o.variantId], ix.templates[o.templateId];
    if v !in d.variants || t !in v.templates {
      return Fail(BlueprintReferenceMismatch);
    }
    if o.variantId !in ix.variantDimension || ix.variantDimension[o.variantId] != o.dimensionId {
      return Fail(BlueprintReferenceMismatch);
    }
    if o.templateId !in ix.templateVariant || ix.templateVariant[o.templateId] != o.variantId {
      return Fail(BlueprintReferenceMismatch);
    }
    if (o.dimensionId, o.variantId) !in matches {
      return Fail(BlueprintReferenceMismatch);
    }
    var m := matches[(o.dimensionId, o.variantId)];
    if exists id :: id in o.evidenceIds && id !in evidence {
      return Fail(InventedEvidenceId);
    }
    if !(Elems(o.evidenceIds) <= Elems(m.evidenceIds)) {
      return Fail(UnauthorizedEvidence);
    }
    if o.evidenceFit != m.fit {
      return Fail(BlueprintReferenceMismatch);
    }
    if o.operation !in v.operations {
      return Fail(UnsupportedCognitiveOperation);
    }
    if o.operation != t.operation {
      return Fail(UnsupportedCognitiveOperation);
    }
    var inherited := o.focus == t.focus && o.observable == t.observable && o.difficulty == t.difficulty
      && o.targetMinutes == t.targetMinutes && o.anchorStructures == t.anchorStructures
      && o.responseFormats == t.responseFormats && o.justificationRequired == t.justificationRequired
      && o.activityPriority == d.priority;
    if !inherited {
      return Fail(BlueprintReferenceMismatch);
    }
    if !NoDup(o.evidenceIds) {
      return Fail(DuplicateId);
    }
    r := ValidateRequirement(o.evidenceIds, v.requirement, evidence);
  }

  /** The validator as it is written: loops with early raises. */
  method ValidateEvidenceMap(mapping: Mapping, blueprint: Blueprint, bundle: Bundle) returns (r: Check)
    ensures r == CheckEvidenceMap(mapping, blueprint, bundle)
  {
    var context := ValidateEvidenceContext(bundle);
    if context.Fail? {
      return context;
    }
    var evidence := EvidenceById(bundle.units);
    if mapping.submissionId != bundle.submissionId {
      return Fail(CrossSubmissionEvidence);
    }
    if mapping.status != Ready {
      if mapping.opportunities != [] || mapping.claims != [] || mapping.matches != [] {
        return Fail(PartialAssessmentForbidden);
      }
      r := ValidateCompleteDiagnostics(mapping.diagnostics, mapping.status, true);
      return;
    }
    var ix := BuildIndex(blueprint);
    if !NoDup(ClaimIds(mapping.claims)) || !NoDup(MatchPaths(mapping.matches)) {
      return Fail(DuplicateId);
    }
    for i := 0 to |mapping.claims|
      invariant CheckClaims(mapping.claims[i..], ix, evidence) == CheckClaims(mapping.claims, ix, evidence)
    {
      assert mapping.claims[i..][1..] == mapping.claims[i+1..];
      var check := ValidateClaim(mapping.claims[i], ix, evidence);
      if check.Fail? {
        return check;
      }
    }
    for i := 0 to |mapping.matches|
      invariant CheckMatches(mapping.matches[i..], ix, evidence) == CheckMatches(mapping.matches, ix, evidence)
    {
      assert mapping.matches[i..][1..] == mapping.matches[i+1..];
      var check := ValidateMatch(mapping.matches[i], ix, evidence);
      if check.Fail? {
        return check;
      }
    }
    var byPath := MatchesByPath(mapping.matches);
    ghost var all := CheckOpportunities(mapping.opportunities, mapping.submissionId, ix, byPath, evidence);
    for i := 0 to |mapping.opportunities|
      invariant CheckOpportunities(mapping.opportunities[i..], mapping.submissionId, ix, byPath, evidence) == all
    {
      assert mapping.opportunities[i..][1..] == mapping.opportunities[i+1..];
      var check := ValidateOpportunity(mapping.opportunities[i], mapping.submissionId, ix, byPath, evidence);
      if check.Fail? {
        return check;
      }
    }
    return Pass;
  }

  // ---- What acceptance means ----

  lemma AcceptedReadyMap(mapping: Mapping, blueprint: Blueprint, bundle: Bundle)
    requires mapping.status == Ready
    ensures var ix, evidence := BlueprintIndex(blueprint), EvidenceById(bundle.units);
            CheckEvidenceMap(mapping, blueprint, bundle).Pass? <==>
              && CheckEvidenceContext(bundle).Pass? && mapping.submissionId == bundle.submissionId
              && NoDup(ClaimIds(mapping.claims)) && NoDup(MatchPaths(mapping.matches))
              && CheckClaims(mapping.claims, ix, evidence).Pass? && CheckMatches(mapping.matches, ix, evidence).Pass?
              && CheckOpportunities(mapping.opportunities, mapping.submissionId, ix, MatchesByPath(mapping.matches), evidence).Pass?
  {
    hide CheckEvidenceContext, NoDup, ClaimIds, MatchPaths, CheckClaims, CheckMatches, CheckOpportunities, BlueprintIndex, EvidenceById, MatchesByPath;
  }

  lemma {:induction false} OpportunitiesPass(os: seq<Opportunity>, submissionId: string, ix: Index,
                                             matches: map<(string, string), VariantMatch>, evidence: map<string, EvidenceUnit>)
    ensures CheckOpportunities(os, submissionId, ix, matches, evidence).Pass? <==>
              forall o :: o in os ==> CheckOpportunity(o, submissionId, ix, matches, evidence).Pass?
  {
    hide CheckOpportunity;
    if os != [] {
      OpportunitiesPass(os[1..], submissionId, ix, matches, evidence);
      assert forall o :: o in os <==> o == os[0] || o in os[1..];
    }
  }

  /** The evidence meets every clause of the requirement. */
  ghost predicate Meets(ids: seq<string>, r: Requirement, evidence: map<string, EvidenceUnit>) {
    && (forall id :: id in ids ==> id in evidence && evidence[id].modality in r.modalities
                                   && evidence[id].confidence >= r.minExtractionConfidence)
    && |Elems(ids)| >= r.minDistinctUnits
    && (r.crossArtifact ==> |set id | id in ids && id in evidence :: evidence[id].artifactId| >= 2)
  }

  /** An opportunity lies on a blueprint path, inherits its template, keeps the fit
      of its variant match and uses evidence of that match that meets the
      variant's requirement. */
  ghost predicate OpportunityAdmissible(o: Opportunity, submissionId: string, ix: Index,
                                        matches: map<(string, string), VariantMatch>, evidence: map<string, EvidenceUnit>) {
    && o.submissionId == submissionId && NoDup(o.evidenceIds)
    && o.dimensionId in ix.dimensions && o.variantId in ix.variants && o.templateId in ix.templates
    && (o.dimensionId, o.variantId) in matches
    && var d, v, t, m := ix.dimensions[o.dimensionId], ix.variants[o.variantId], ix.templates[o.templateId], matches[(o.dimensionId, o.variantId)];
       && v in d.variants && t in v.templates
       && o.variantId in ix.variantDimension && ix.variantDimension[o.variantId] == o.dimensionId
       && o.templateId in ix.templateVariant && ix.templateVariant[o.templateId] == o.variantId
       && Elems(o.evidenceIds) <= Elems(m.evidenceIds) && o.evidenceFit == m.fit
       && o.operation in v.operations && o.operation == t.operation && Inherited(o, t, d)
       && Meets(o.evidenceIds, v.requirement, evidence)
  }

  lemma AcceptedOpportunity(o: Opportunity, submissionId: string, ix: Index,
                            matches: map<(string, string), VariantMatch>, evidence: map<string, EvidenceUnit>)
    ensures CheckOpportunity(o, submissionId, ix, matches, evidence).Pass? <==> OpportunityAdmissible(o, submissionId, ix, matches, evidence)
  {
    hide NoDup, Inherited, CheckRequirement;
    if o.variantId in ix.variants && forall id :: id in o.evidenceIds ==> id in evidence {
      RequirementMet(o.evidenceIds, ix.variants[o.variantId].requirement, evidence);
    }
  }

  lemma RequirementMet(ids: seq<string>, r: Requirement, evidence: map<string, EvidenceUnit>)
    requires forall id :: id in ids ==> id in evidence
    ensures CheckRequirement(ids, r, evidence).Pass? <==> Meets(ids, r, evidence)
  {
    assert (set id | id in ids && id in evidence :: evidence[id].artifactId) == set id | id in ids :: evidence[id].artifactId;
  }

  lemma {:induction false} VariantIdsKnown(variantIds: seq<string>, dimensionId: string, ix: Index)
    ensures CheckVariantIds(variantIds, dimensionId, ix).Pass? <==>
              forall v :: v in variantIds ==> v in ix.variants && v in ix.variantDimension && ix.variantDimension[v] == dimensionId
  {
    if variantIds != [] {
      VariantIdsKnown(variantIds[1..], dimensionId, ix);
      assert forall v :: v in variantIds <==> v == variantIds[0] || v in variantIds[1..];
    }
  }

  /** An alignment stays inside one blueprint dimension. */
  ghost predicate Aligned(a: Alignment, ix: Index) {
    && a.dimensionId in ix.dimensions
    && Elems(a.criterionIds) <= Elems(ix.dimensions[a.dimensionId].criterionIds)
    && forall v :: v in a.variantIds ==> v in ix.variants && v in ix.variantDimension && ix.variantDimension[v] == a.dimensionId
  }

  lemma {:induction false} AlignmentsKnown(alignments: seq<Alignment>, ix: Index)
    ensures CheckAlignments(alignments, ix).Pass? <==> forall a :: a in alignments ==> Aligned(a, ix)
  {
    hide CheckVariantIds;
    if alignments != [] {
      var first := alignments[0];
      VariantIdsKnown(first.variantIds, first.dimensionId, ix);
      AlignmentsKnown(alignments[1..], ix);
      assert CheckAlignments(alignments, ix).Pass? <==> Aligned(first, ix) && CheckAlignments(alignments[1..], ix).Pass?;
      assert forall a :: a in alignments <==> a == first || a in alignments[1..];
    }
  }

  /** A claim cites known evidence, stays on blueprint paths and claims no
      operation beyond those of the variants it is aligned with. */
  ghost predicate ClaimAdmissible(claim: Claim, ix: Index, evidence: map<string, EvidenceUnit>) {
    && (forall id :: id in claim.evidenceIds ==> id in evidence)
    && (forall a :: a in claim.alignments ==> Aligned(a, ix))
    && forall op :: op in claim.operations ==>
         exists a, v :: a in claim.alignments && v in a.variantIds && v in ix.variants && op in ix.variants[v].operations
  }

  lemma AcceptedClaim(claim: Claim, ix: Index, evidence: map<string, EvidenceUnit>)
    ensures CheckClaim(claim, ix, evidence).Pass? <==> ClaimAdmissible(claim, ix, evidence)
  {
    hide Aligned, CheckAlignments;
    AlignmentsKnown(claim.alignments, ix);
    assert Elems(claim.operations) <= AllowedOperations(claim.alignments, ix) <==>
      forall op :: op in claim.operations ==>
        exists a, v :: a in claim.alignments && v in a.variantIds && v in ix.variants && op in ix.variants[v].operations by {
      assert forall op :: op in claim.operations <==> op in Elems(claim.operations);
    }
  }

  /** A match lies on a blueprint path, reaches the alignment floor and has
      evidence that meets the variant's requirement. */
  ghost predicate MatchAdmissible(m: VariantMatch, ix: Index, evidence: map<string, EvidenceUnit>) {
    && m.dimensionId in ix.dimensions && m.variantId in ix.variants
    && m.variantId in ix.variantDimension && ix.variantDimension[m.variantId] == m.dimensionId
    && NoDup(m.evidenceIds) && m.confidence >= ix.variants[m.variantId].requirement.minAlignment
    && Meets(m.evidenceIds, ix.variants[m.variantId].requirement, evidence)
  }

  lemma AcceptedMatch(m: VariantMatch, ix: Index, evidence: map<string, EvidenceUnit>)
    ensures CheckMatch(m, ix, evidence).Pass? <==> MatchAdmissible(m, ix, evidence)
  {
    hide NoDup, CheckRequirement;
    if m.variantId in ix.variants && forall id :: id in m.evidenceIds ==> id in evidence {
      RequirementMet(m.evidenceIds, ix.variants[m.variantId].requirement, evidence);
    }
  }

  /** The validator accepts a READY map exactly when every claim, match and
      opportunity is admissible, identifiers are distinct and the bundle is in
      order; no order of the checks shows in the verdict. */
  lemma ReadyMapAccepted(mapping: Mapping, blueprint: Blueprint, bundle: Bundle)
    requires mapping.status == Ready
    ensures var ix, evidence := BlueprintIndex(blueprint), EvidenceById(bundle.units);
            CheckEvidenceMap(mapping, blueprint, bundle).Pass? <==>
              && CheckEvidenceContext(bundle).Pass? && mapping.submissionId == bundle.submissionId
              && NoDup(ClaimIds(mapping.claims)) && NoDup(MatchPaths(mapping.matches))
              && (forall c :: c in mapping.claims ==> ClaimAdmissible(c, ix, evidence))
              && (forall m :: m in mapping.matches ==> MatchAdmissible(m, ix, evidence))
              && forall o :: o in mapping.opportunities ==>
                   OpportunityAdmissible(o, mapping.submissionId, ix, MatchesByPath(mapping.matches), evidence)
  {
    hide *;
    var ix, evidence, byPath := BlueprintIndex(blueprint), EvidenceById(bundle.units), MatchesByPath(mapping.matches);
    AcceptedReadyMap(mapping, blueprint, bundle);
    ClaimsPass(mapping.claims, ix, evidence);
    MatchesPass(mapping.matches, ix, evidence);
    OpportunitiesPass(mapping.opportunities, mapping.submissionId, ix, byPath, evidence);
    forall c | c in mapping.claims ensures CheckClaim(c, ix, evidence).Pass? <==> ClaimAdmissible(c, ix, evidence) {
      AcceptedClaim(c, ix, evidence);
    }
    forall m | m in mapping.matches ensures CheckMatch(m, ix, evidence).Pass? <==> MatchAdmissible(m, ix, evidence) {
      AcceptedMatch(m, ix, evidence);
    }
    forall o | o in mapping.opportunities
      ensures CheckOpportunity(o, mapping.submissionId, ix, byPath, evidence).Pass? <==>
                OpportunityAdmissible(o, mapping.submissionId, ix, byPath, evidence)
    {
      AcceptedOpportunity(o, mapping.submissionId, ix, byPath, evidence);
    }
  }

  lemma {:induction false} ClaimsPass(claims: seq<Claim>, ix: Index, evidence: map<string, EvidenceUnit>)
    ensures CheckClaims(claims, ix, evidence).Pass? <==> forall c :: c in claims ==> CheckClaim(c, ix, evidence).Pass?
  {
    hide CheckClaim;
    if claims != [] {
      ClaimsPass(claims[1..], ix, evidence);
      assert forall c :: c in claims <==> c == claims[0] || c in claims[1..];
    }
  }

  lemma {:induction false} MatchesPass(matches: seq<VariantMatch>, ix: Index, evidence: map<string, EvidenceUnit>)
    ensures CheckMatches(matches, ix, evidence).Pass? <==> forall m :: m in matches ==> CheckMatch(m, ix, evidence).Pass?
  {
    hide CheckMatch;
    if matches != [] {
      MatchesPass(matches[1..], ix, evidence);
      assert forall m :: m in matches <==> m == matches[0] || m in matches[1..];
    }
  }

  /** No accepted map mentions foreign evidence: whatever its claims, matches and
      opportunities cite is a unit of the bundle's own tenant and submission. */
  lemma MapCitesOwnEvidence(mapping: Mapping, blueprint: Blueprint, bundle: Bundle, id: string)
    requires CheckEvidenceMap(mapping, blueprint, bundle).Pass?
    requires (exists c :: c in mapping.claims && id in c.evidenceIds) || (exists m :: m in mapping.matches && id in m.evidenceIds)
             || exists o :: o in mapping.opportunities && id in o.evidenceIds
    ensures mapping.status == Ready && id in EvidenceById(bundle.units) && OwnUnit(bundle, EvidenceById(bundle.units)[id])
  {
    if mapping.status != Ready {
      FailedMapIsEmpty(mapping, blueprint, bundle);
    }
    AcceptedReadyMap(mapping, blueprint, bundle);
    hide CheckEvidenceMap, CheckClaim, CheckMatch, CheckOpportunity, NoDup, Meets, Aligned, Inherited;
    var ix, evidence, byPath := BlueprintIndex(blueprint), EvidenceById(bundle.units), MatchesByPath(mapping.matches);
    UnitsOwned(bundle.units, bundle);
    ClaimsPass(mapping.claims, ix, evidence);
    MatchesPass(mapping.matches, ix, evidence);
    OpportunitiesPass(mapping.opportunities, mapping.submissionId, ix, byPath, evidence);
    if c :| c in mapping.claims && id in c.evidenceIds {
      AcceptedClaim(c, ix, evidence);
    } else if m :| m in mapping.matches && id in m.evidenceIds {
      MatchEvidenceKnown(m, ix, evidence, id);
    } else {
      var o :| o in mapping.opportunities && id in o.evidenceIds;
      OpportunityEvidenceKnown(o, mapping.submissionId, ix, byPath, evidence, id);
    }
  }

  lemma MatchEvidenceKnown(m: VariantMatch, ix: Index, evidence: map<string, EvidenceUnit>, id: string)
    requires CheckMatch(m, ix, evidence).Pass? && id in m.evidenceIds
    ensures id in evidence
  {
    AcceptedMatch(m, ix, evidence);
  }

  lemma OpportunityEvidenceKnown(o: Opportunity, submissionId: string, ix: Index,
                                 matches: map<(string, string), VariantMatch>, evidence: map<string, EvidenceUnit>, id: string)
    requires CheckOpportunity(o, submissionId, ix, matches, evidence).Pass? && id in o.evidenceIds
    ensures id in evidence
  {
    AcceptedOpportunity(o, submissionId, ix, matches, evidence);
  }

  /** A failed map that is accepted exposes nothing and explains itself. */
  lemma FailedMapIsEmpty(mapping: Mapping, blueprint: Blueprint, bundle: Bundle)
    requires CheckEvidenceMap(mapping, blueprint, bundle).Pass? && mapping.status != Ready
    ensures mapping.claims == [] && mapping.matches == [] && mapping.opportunities == []
    ensures exists d :: d in mapping.diagnostics && d.code == OfStatus(mapping.status) && d.severity in {Error, Critical} && !d.retryable
  {
    hide CheckEvidenceContext, BlueprintIndex, EvidenceById;
  }

  // ---- Plans ----

  function CheckAssessmentPlan(plan: Plan, mapping: Mapping): Check {
    if plan.submissionId != mapping.submissionId then Fail(CrossSubmissionEvidence)
    else if plan.status == Ready then
      :- Need(|plan.selectedIds| == plan.questionCount, PartialAssessmentForbidden);
      :- Need(Elems(plan.selectedIds + plan.reserveIds) <= Elems(IdsOf(mapping.opportunities)), InventedId);
      Need(NoDup(plan.selectedIds + plan.reserveIds), PlanDuplicateOpportunity)
    else
      :- Need(plan.selectedIds == [] && plan.reserveIds == [], PartialAssessmentForbidden);
      CheckCompleteDiagnostics(plan.diagnostics, plan.status, true)
  }

  method ValidateAssessmentPlan(plan: Plan, mapping: Mapping) returns (r: Check)
    ensures r == CheckAssessmentPlan(plan, mapping)
  {
    hide NoDup, Elems, IdsOf, CheckCompleteDiagnostics;
    if plan.submissionId != mapping.submissionId {
      return Fail(CrossSubmissionEvidence);
    }
    if plan.status == Ready {
      if |plan.selectedIds| != plan.questionCount {
        return Fail(PartialAssessmentForbidden);
      }
      if !(Elems(plan.selectedIds + plan.reserveIds) <= Elems(IdsOf(mapping.opportunities))) {
        return Fail(InventedId);
      }
      if !NoDup(plan.selectedIds + plan.reserveIds) {
        return Fail(PlanDuplicateOpportunity);
      }
      return Pass;
    }
    if plan.selectedIds != [] || plan.reserveIds != [] {
      return Fail(PartialAssessmentForbidden);
    }
    r := ValidateCompleteDiagnostics(plan.diagnostics, plan.status, true);
  }
}
