/** A refused evidence map: the error it raises names a defect that the map, its
    blueprint or its bundle really has. */
module Refusals {
  import opened Orders
  import opened Results
  import opened Contracts
  import opened Validation
  import opened Acceptance
  import opened Verdicts

  // ---- What is cited, named and required ----

  /** Some claim, match or opportunity cites the identifier. */
  ghost predicate Cites(mapping: Mapping, id: string) {
    || (exists c :: c in mapping.claims && id in c.evidenceIds)
    || (exists m :: m in mapping.matches && id in m.evidenceIds)
    || (exists o :: o in mapping.opportunities && id in o.evidenceIds)
  }

  ghost predicate NamesDimension(mapping: Mapping, id: string) {
    || (exists c, a :: c in mapping.claims && a in c.alignments && a.dimensionId == id)
    || (exists m :: m in mapping.matches && m.dimensionId == id)
    || (exists o :: o in mapping.opportunities && o.dimensionId == id)
  }

  ghost predicate NamesVariant(mapping: Mapping, id: string) {
    || (exists c, a :: c in mapping.claims && a in c.alignments && id in a.variantIds)
    || (exists m :: m in mapping.matches && m.variantId == id)
    || (exists o :: o in mapping.opportunities && o.variantId == id)
  }

  /** A match or an opportunity of the variant relies on this evidence. */
  ghost predicate ReliesOn(mapping: Mapping, variantId: string, ids: seq<string>) {
    || (exists m :: m in mapping.matches && m.variantId == variantId && m.evidenceIds == ids)
    || (exists o :: o in mapping.opportunities && o.variantId == variantId && o.evidenceIds == ids)
  }

  ghost predicate Variants(blueprint: Blueprint, v: Variant) {
    exists d :: OnPath(blueprint, d, v)
  }

  ghost predicate Templates(blueprint: Blueprint, t: Template) {
    exists d, v :: OnPath(blueprint, d, v) && t in v.templates
  }

  /** A match or an opportunity relies on evidence with the flaw, judged by the
      requirement of its variant. */
  ghost predicate Relied(mapping: Mapping, blueprint: Blueprint, flaw: (Requirement, seq<string>) -> bool) {
    exists v, ids :: Variants(blueprint, v) && ReliesOn(mapping, v.variantId, ids) && flaw(v.requirement, ids)
  }

  ghost predicate TooFew(r: Requirement, ids: seq<string>, units: seq<EvidenceUnit>) {
    || |Elems(ids)| < r.minDistinctUnits
    || (r.crossArtifact && forall u, w :: u in units && w in units && u.evidenceId in ids && w.evidenceId in ids ==> u.artifactId == w.artifactId)
  }

  ghost predicate WrongKind(r: Requirement, ids: seq<string>, units: seq<EvidenceUnit>) {
    exists u :: u in units && u.evidenceId in ids && u.modality !in r.modalities
  }

  ghost predicate TooUncertain(r: Requirement, ids: seq<string>, units: seq<EvidenceUnit>) {
    exists u :: u in units && u.evidenceId in ids && u.confidence < r.minExtractionConfidence
  }

  /** The defect that an error names. */
  ghost predicate Defect(e: ErrorCode, mapping: Mapping, blueprint: Blueprint, bundle: Bundle) {
    match e
    case EvidenceAllowlistMismatch => Elems(bundle.allowedEvidenceIds) != Elems(UnitIds(bundle.units))
    case CrossTenantEvidence => exists u :: u in bundle.units && u.tenantId != bundle.tenantId
    case CrossSubmissionEvidence =>
      || (exists u :: u in bundle.units && u.submissionId != Some(bundle.submissionId))
      || mapping.submissionId != bundle.submissionId
      || (exists o :: o in mapping.opportunities && o.submissionId != mapping.submissionId)
    case EvidenceRoleMismatch => exists u :: u in bundle.units && !u.fromSubmission
    case UnauthorizedSource => bundle.contextMode == Closed && bundle.sourceIds != []
    case PartialAssessmentForbidden =>
      mapping.status != Ready && (mapping.claims != [] || mapping.matches != [] || mapping.opportunities != [])
    case DiagnosticIncomplete =>
      mapping.status != Ready
      && !(Final(mapping.diagnostics) && exists d :: d in mapping.diagnostics && d.code == OfStatus(mapping.status))
    case DuplicateId =>
      || !NoDup(ClaimIds(mapping.claims)) || !NoDup(MatchPaths(mapping.matches))
      || (exists m :: m in mapping.matches && !NoDup(m.evidenceIds))
      || (exists o :: o in mapping.opportunities && !NoDup(o.evidenceIds))
    case InventedEvidenceId => exists id :: Cites(mapping, id) && id !in UnitIds(bundle.units)
    case InventedId =>
      || (exists id :: NamesDimension(mapping, id) && forall d :: d in blueprint.dimensions ==> d.dimensionId != id)
      || (exists id :: NamesVariant(mapping, id) && forall v :: Variants(blueprint, v) ==> v.variantId != id)
      || (exists o :: o in mapping.opportunities && forall t :: Templates(blueprint, t) ==> t.templateId != o.templateId)
    case BlueprintReferenceMismatch =>
      || (exists c, a :: c in mapping.claims && a in c.alignments && !AlignmentFits(a, blueprint))
      || (exists m :: m in mapping.matches
            && forall d, v :: OnPath(blueprint, d, v) ==> d.dimensionId != m.dimensionId || v.variantId != m.variantId)
      || (exists o :: o in mapping.opportunities
            && forall d, v, t, m :: OnPath(blueprint, d, v) && m in mapping.matches ==> !DrawnFrom(o, d, v, t, m))
    case UnsupportedCognitiveOperation =>
      || (exists c, op :: c in mapping.claims && op in c.operations && !Backed(c, blueprint, op))
      || (exists o :: o in mapping.opportunities
            && forall d, v, t :: OnPath(blueprint, d, v) && t in v.templates && v.variantId == o.variantId && t.templateId == o.templateId ==>
                 o.operation !in v.operations || o.operation != t.operation)
    case MappingUncertain =>
      exists m, v :: m in mapping.matches && Variants(blueprint, v) && v.variantId == m.variantId && m.confidence < v.requirement.minAlignment
    case InsufficientEvidence => Relied(mapping, blueprint, (r, ids) => TooFew(r, ids, bundle.units))
    case EvidenceModalityMismatch => Relied(mapping, blueprint, (r, ids) => WrongKind(r, ids, bundle.units))
    case EvidenceConfidenceLow => Relied(mapping, blueprint, (r, ids) => TooUncertain(r, ids, bundle.units))
    case UnauthorizedEvidence =>
      exists o, m, id :: o in mapping.opportunities && m in mapping.matches && o.dimensionId == m.dimensionId
        && o.variantId == m.variantId && id in o.evidenceIds && id !in m.evidenceIds
    case _ => false
  }

  // ---- Which part of the map raised it ----

  lemma {:induction false} RaisingUnit(units: seq<EvidenceUnit>, bundle: Bundle) returns (u: EvidenceUnit)
    requires CheckUnits(units, bundle).Fail?
    ensures u in units
    ensures match CheckUnits(units, bundle).error
            case CrossTenantEvidence => u.tenantId != bundle.tenantId
            case CrossSubmissionEvidence => u.submissionId != Some(bundle.submissionId)
            case EvidenceRoleMismatch => !u.fromSubmission
            case _ => false
  {
    u := units[0];
    if CheckUnits(units, bundle) == CheckUnits(units[1..], bundle) && u.tenantId == bundle.tenantId
       && u.submissionId == Some(bundle.submissionId) && u.fromSubmission {
      u := RaisingUnit(units[1..], bundle);
    }
  }

  lemma {:induction false} RaisingClaim(claims: seq<Claim>, ix: Index, evidence: map<string, EvidenceUnit>) returns (c: Claim)
    requires CheckClaims(claims, ix, evidence).Fail?
    ensures c in claims && CheckClaim(c, ix, evidence) == CheckClaims(claims, ix, evidence)
  {
    hide CheckClaim;
    c := claims[0];
    if CheckClaim(c, ix, evidence).Pass? {
      c := RaisingClaim(claims[1..], ix, evidence);
    }
  }

  lemma {:induction false} RaisingMatch(matches: seq<VariantMatch>, ix: Index, evidence: map<string, EvidenceUnit>) returns (m: VariantMatch)
    requires CheckMatches(matches, ix, evidence).Fail?
    ensures m in matches && CheckMatch(m, ix, evidence) == CheckMatches(matches, ix, evidence)
  {
    hide CheckMatch;
    m := matches[0];
    if CheckMatch(m, ix, evidence).Pass? {
      m := RaisingMatch(matches[1..], ix, evidence);
    }
  }

  lemma {:induction false} RaisingOpportunity(os: seq<Opportunity>, submissionId: string, ix: Index,
                                              matches: map<(string, string), VariantMatch>, evidence: map<string, EvidenceUnit>)
    returns (o: Opportunity)
    requires CheckOpportunities(os, submissionId, ix, matches, evidence).Fail?
    ensures o in os && CheckOpportunity(o, submissionId, ix, matches, evidence) == CheckOpportunities(os, submissionId, ix, matches, evidence)
  {
    hide CheckOpportunity;
    o := os[0];
    if CheckOpportunity(o, submissionId, ix, matches, evidence).Pass? {
      o := RaisingOpportunity(os[1..], submissionId, ix, matches, evidence);
    }
  }

  lemma {:induction false} RaisingAlignment(alignments: seq<Alignment>, ix: Index) returns (a: Alignment)
    requires CheckAlignments(alignments, ix).Fail?
    ensures a in alignments
    ensures match CheckAlignments(alignments, ix).error
            case InventedId => a.dimensionId !in ix.dimensions || exists id :: id in a.variantIds && id !in ix.variants
            case BlueprintReferenceMismatch => !Aligned(a, ix)
            case _ => false
  {
    hide CheckVariantIds, Aligned, Elems;
    a := alignments[0];
    if a.dimensionId in ix.dimensions {
      if Elems(a.criterionIds) <= Elems(ix.dimensions[a.dimensionId].criterionIds) && CheckVariantIds(a.variantIds, a.dimensionId, ix).Pass? {
        a := RaisingAlignment(alignments[1..], ix);
      } else {
        MisalignedFacts(a, ix);
      }
    }
  }

  lemma MisalignedFacts(a: Alignment, ix: Index)
    requires a.dimensionId in ix.dimensions
    ensures CheckVariantIds(a.variantIds, a.dimensionId, ix).Fail? ==> !Aligned(a, ix)
    ensures !(Elems(a.criterionIds) <= Elems(ix.dimensions[a.dimensionId].criterionIds)) ==> !Aligned(a, ix)
    ensures CheckVariantIds(a.variantIds, a.dimensionId, ix) == Fail(InventedId) ==> exists id :: id in a.variantIds && id !in ix.variants
    ensures CheckVariantIds(a.variantIds, a.dimensionId, ix) in {Pass, Fail(InventedId), Fail(BlueprintReferenceMismatch)}
  {
    VariantIdsKnown(a.variantIds, a.dimensionId, ix);
    VariantIdsRaise(a.variantIds, a.dimensionId, ix);
  }

  lemma {:induction false} VariantIdsRaise(variantIds: seq<string>, dimensionId: string, ix: Index)
    ensures var r := CheckVariantIds(variantIds, dimensionId, ix);
            r in {Pass, Fail(InventedId), Fail(BlueprintReferenceMismatch)}
            && (r == Fail(InventedId) ==> exists id :: id in variantIds && id !in ix.variants)
  {
    if variantIds != [] {
      VariantIdsRaise(variantIds[1..], dimensionId, ix);
    }
  }

  // ---- What each part can raise ----

  lemma RequirementRaises(ids: seq<string>, r: Requirement, units: seq<EvidenceUnit>)
    requires NoDup(UnitIds(units)) && forall id :: id in ids ==> id in EvidenceById(units)
    ensures match CheckRequirement(ids, r, EvidenceById(units))
            case Pass => true
            case Fail(InsufficientEvidence) => TooFew(r, ids, units)
            case Fail(EvidenceModalityMismatch) => WrongKind(r, ids, units)
            case Fail(EvidenceConfidenceLow) => TooUncertain(r, ids, units)
            case Fail(_) => false
  {
    hide EvidenceById, NoDup, Elems;
    var m := EvidenceById(units);
    UnitsFiled(units);
    ArtifactsDiffer(ids, units);
    assert (set id | id in ids && id in m :: m[id].artifactId) == set id | id in ids :: m[id].artifactId;
    if id :| id in ids && m[id].modality !in r.modalities {
      assert m[id] in units && m[id].evidenceId == id;
    }
    if id :| id in ids && m[id].confidence < r.minExtractionConfidence {
      assert m[id] in units && m[id].evidenceId == id;
    }
  }

  lemma NotInIndex(blueprint: Blueprint, id: string)
    requires UniqueBlueprint(blueprint)
    ensures id !in BlueprintIndex(blueprint).dimensions ==> forall d :: d in blueprint.dimensions ==> d.dimensionId != id
    ensures id !in BlueprintIndex(blueprint).variants ==> forall v :: Variants(blueprint, v) ==> v.variantId != id
    ensures id !in BlueprintIndex(blueprint).templates ==> forall t :: Templates(blueprint, t) ==> t.templateId != id
  {
    hide UniqueBlueprint, BlueprintIndex;
    IndexIsBlueprint(blueprint);
    var ix := BlueprintIndex(blueprint);
    forall d | d in blueprint.dimensions ensures d.dimensionId in ix.dimensions {
      assert DimensionFiled(ix, d);
    }
    forall v | Variants(blueprint, v) ensures v.variantId in ix.variants {
      var d :| OnPath(blueprint, d, v);
      FiledVariant(blueprint, d, v);
    }
    forall t | Templates(blueprint, t) ensures t.templateId in ix.templates {
      var d, v :| OnPath(blueprint, d, v) && t in v.templates;
      FiledVariant(blueprint, d, v);
    }
  }

  lemma ClaimRaises(claim: Claim, mapping: Mapping, blueprint: Blueprint, bundle: Bundle)
    requires UniqueBlueprint(blueprint) && NoDup(UnitIds(bundle.units)) && claim in mapping.claims
    ensures var r := CheckClaim(claim, BlueprintIndex(blueprint), EvidenceById(bundle.units));
            r.Fail? ==> Defect(r.error, mapping, blueprint, bundle)
  {
    hide UniqueBlueprint, BlueprintIndex, EvidenceById, NoDup, CheckAlignments, AlignmentFits, UnitIds, Aligned, Backed;
    var ix, evidence := BlueprintIndex(blueprint), EvidenceById(bundle.units);
    KnownIds(bundle.units);
    if id :| id in claim.evidenceIds && id !in evidence {
      assert Cites(mapping, id);
    } else if CheckAlignments(claim.alignments, ix).Fail? {
      var a := RaisingAlignment(claim.alignments, ix);
      AlignedMeansFits(a, blueprint);
      NotInIndex(blueprint, a.dimensionId);
      assert NamesDimension(mapping, a.dimensionId);
      if id :| id in a.variantIds && id !in ix.variants {
        NotInIndex(blueprint, id);
        assert NamesVariant(mapping, id);
      }
    } else if CheckClaim(claim, ix, evidence).Fail? {
      AlignmentsKnown(claim.alignments, ix);
      var op :| op in claim.operations && op !in AllowedOperations(claim.alignments, ix);
      OperationSource(claim, blueprint, op);
    }
  }

  /** Evidence that a match or an opportunity relies on can raise three errors, each of
      them for a flaw of that evidence. */
  lemma ReliedRaises(ids: seq<string>, v: Variant, mapping: Mapping, blueprint: Blueprint, bundle: Bundle)
    requires NoDup(UnitIds(bundle.units)) && forall id :: id in ids ==> id in EvidenceById(bundle.units)
    requires Variants(blueprint, v) && ReliesOn(mapping, v.variantId, ids)
    ensures var r := CheckRequirement(ids, v.requirement, EvidenceById(bundle.units));
            r.Fail? ==> Defect(r.error, mapping, blueprint, bundle)
    ensures CheckRequirement(ids, v.requirement, EvidenceById(bundle.units))
            in {Pass, Fail(InsufficientEvidence), Fail(EvidenceModalityMismatch), Fail(EvidenceConfidenceLow)}
  {
    hide EvidenceById, NoDup, UnitIds, TooFew, WrongKind, TooUncertain, ReliesOn, Variants, CheckRequirement;
    RequirementRaises(ids, v.requirement, bundle.units);
  }

  lemma UnknownPath(m: VariantMatch, mapping: Mapping, blueprint: Blueprint, bundle: Bundle)
    requires UniqueBlueprint(blueprint) && m in mapping.matches
    ensures var ix := BlueprintIndex(blueprint);
            (m.dimensionId !in ix.dimensions || m.variantId !in ix.variants ==> Defect(InventedId, mapping, blueprint, bundle))
            && (m.variantId !in ix.variantDimension || ix.variantDimension[m.variantId] != m.dimensionId ==>
                  Defect(BlueprintReferenceMismatch, mapping, blueprint, bundle))
  {
    hide UniqueBlueprint, BlueprintIndex;
    var ix := BlueprintIndex(blueprint);
    NotInIndex(blueprint, m.dimensionId);
    NotInIndex(blueprint, m.variantId);
    assert NamesDimension(mapping, m.dimensionId) && NamesVariant(mapping, m.variantId);
    if m.variantId !in ix.variantDimension || ix.variantDimension[m.variantId] != m.dimensionId {
      NotOnPath(blueprint, m.dimensionId, m.variantId);
    }
  }

  lemma UnknownEvidence(id: string, mapping: Mapping, blueprint: Blueprint, bundle: Bundle)
    requires Cites(mapping, id) && id !in EvidenceById(bundle.units)
    ensures Defect(InventedEvidenceId, mapping, blueprint, bundle)
  {
    hide Cites, EvidenceById;
    KnownIds(bundle.units);
  }

  lemma MatchRaises(m: VariantMatch, mapping: Mapping, blueprint: Blueprint, bundle: Bundle)
    requires UniqueBlueprint(blueprint) && NoDup(UnitIds(bundle.units)) && m in mapping.matches
    ensures var r := CheckMatch(m, BlueprintIndex(blueprint), EvidenceById(bundle.units));
            r.Fail? ==> Defect(r.error, mapping, blueprint, bundle)
  {
    hide UniqueBlueprint, BlueprintIndex, EvidenceById, NoDup, UnitIds, CheckRequirement, Defect;
    var ix, evidence := BlueprintIndex(blueprint), EvidenceById(bundle.units);
    UnknownPath(m, mapping, blueprint, bundle);
    MatchDefects(m, mapping, blueprint, bundle);
    if id :| id in m.evidenceIds && id !in evidence {
      UnknownEvidence(id, mapping, blueprint, bundle);
    } else if m.variantId in ix.variants && m.variantId in ix.variantDimension && ix.variantDimension[m.variantId] == m.dimensionId {
      var d, v := VariantOfIndex(blueprint, m.dimensionId, m.variantId);
      assert OnPath(blueprint, d, v);
      ReliedRaises(m.evidenceIds, v, mapping, blueprint, bundle);
    }
  }

  lemma MatchDefects(m: VariantMatch, mapping: Mapping, blueprint: Blueprint, bundle: Bundle)
    requires m in mapping.matches
    ensures !NoDup(m.evidenceIds) ==> Defect(DuplicateId, mapping, blueprint, bundle)
    ensures forall v :: Variants(blueprint, v) && v.variantId == m.variantId && m.confidence < v.requirement.minAlignment ==>
              Defect(MappingUncertain, mapping, blueprint, bundle)
  {
    hide NoDup, Variants;
  }

  lemma NotOnPath(blueprint: Blueprint, dimensionId: string, variantId: string)
    requires UniqueBlueprint(blueprint)
    requires var ix := BlueprintIndex(blueprint); variantId !in ix.variantDimension || ix.variantDimension[variantId] != dimensionId
    ensures forall d, v :: OnPath(blueprint, d, v) ==> d.dimensionId != dimensionId || v.variantId != variantId
  {
    hide UniqueBlueprint, BlueprintIndex;
    forall d, v | OnPath(blueprint, d, v) ensures d.dimensionId != dimensionId || v.variantId != variantId {
      FiledVariant(blueprint, d, v);
    }
  }

  /** An opportunity drawn from the blueprint passes everything but its own evidence. */
  lemma DrawnPasses(o: Opportunity, d: Dimension, v: Variant, t: Template, m: VariantMatch, mapping: Mapping, blueprint: Blueprint)
    requires UniqueBlueprint(blueprint) && NoDup(MatchPaths(mapping.matches))
    requires OnPath(blueprint, d, v) && m in mapping.matches && DrawnFrom(o, d, v, t, m)
    ensures var ix, byPath := BlueprintIndex(blueprint), MatchesByPath(mapping.matches);
            && o.dimensionId in ix.dimensions && ix.dimensions[o.dimensionId] == d
            && o.variantId in ix.variants && ix.variants[o.variantId] == v && o.templateId in ix.templates && ix.templates[o.templateId] == t
            && o.variantId in ix.variantDimension && ix.variantDimension[o.variantId] == o.dimensionId
            && o.templateId in ix.templateVariant && ix.templateVariant[o.templateId] == o.variantId
            && (o.dimensionId, o.variantId) in byPath && byPath[(o.dimensionId, o.variantId)] == m
  {
    hide UniqueBlueprint, BlueprintIndex, MatchesByPath, NoDup, MatchPaths;
    FiledVariant(blueprint, d, v);
    MatchesFiled(mapping.matches);
  }

  lemma OperationRaises(o: Opportunity, mapping: Mapping, blueprint: Blueprint)
    requires UniqueBlueprint(blueprint) && o in mapping.opportunities
    requires var ix := BlueprintIndex(blueprint);
             o.variantId in ix.variants && o.templateId in ix.templates
             && (o.operation !in ix.variants[o.variantId].operations || o.operation != ix.templates[o.templateId].operation)
    ensures forall d, v, t :: OnPath(blueprint, d, v) && t in v.templates && v.variantId == o.variantId && t.templateId == o.templateId ==>
              o.operation !in v.operations || o.operation != t.operation
  {
    hide UniqueBlueprint, BlueprintIndex;
    forall d, v, t | OnPath(blueprint, d, v) && t in v.templates && v.variantId == o.variantId && t.templateId == o.templateId
      ensures o.operation !in v.operations || o.operation != t.operation
    {
      FiledVariant(blueprint, d, v);
    }
  }

  /** What an opportunity passes until its evidence is judged. */
  lemma OpportunityRaises(o: Opportunity, mapping: Mapping, blueprint: Blueprint, bundle: Bundle)
    requires UniqueBlueprint(blueprint) && NoDup(UnitIds(bundle.units)) && NoDup(MatchPaths(mapping.matches)) && o in mapping.opportunities
    ensures var r := CheckOpportunity(o, mapping.submissionId, BlueprintIndex(blueprint), MatchesByPath(mapping.matches), EvidenceById(bundle.units));
            r.Fail? ==> Defect(r.error, mapping, blueprint, bundle)
  {
    hide UniqueBlueprint, BlueprintIndex, EvidenceById, NoDup, UnitIds, CheckRequirement, MatchesByPath, MatchPaths, DrawnFrom, Elems, Defect;
    var ix, evidence, byPath := BlueprintIndex(blueprint), EvidenceById(bundle.units), MatchesByPath(mapping.matches);
    var r := CheckOpportunity(o, mapping.submissionId, ix, byPath, evidence);
    OpportunityDefects(o, mapping, blueprint, bundle);
    if r == Fail(BlueprintReferenceMismatch) {
      MismatchRaises(o, mapping, blueprint, bundle);
    } else if id :| id in o.evidenceIds && id !in evidence {
      UnknownEvidence(id, mapping, blueprint, bundle);
    } else if o.variantId in ix.variants && o.variantId in ix.variantDimension && ix.variantDimension[o.variantId] == o.dimensionId {
      var d, v := VariantOfIndex(blueprint, o.dimensionId, o.variantId);
      assert OnPath(blueprint, d, v);
      ReliedRaises(o.evidenceIds, v, mapping, blueprint, bundle);
    }
  }

  lemma MismatchRaises(o: Opportunity, mapping: Mapping, blueprint: Blueprint, bundle: Bundle)
    requires UniqueBlueprint(blueprint) && NoDup(UnitIds(bundle.units)) && NoDup(MatchPaths(mapping.matches)) && o in mapping.opportunities
    requires CheckOpportunity(o, mapping.submissionId, BlueprintIndex(blueprint), MatchesByPath(mapping.matches), EvidenceById(bundle.units))
             == Fail(BlueprintReferenceMismatch)
    ensures Defect(BlueprintReferenceMismatch, mapping, blueprint, bundle)
  {
    hide UniqueBlueprint, NoDup, UnitIds, MatchPaths, CheckOpportunity, DrawnFrom, BlueprintIndex, EvidenceById, MatchesByPath;
    forall d, v, t, m | OnPath(blueprint, d, v) && m in mapping.matches ensures !DrawnFrom(o, d, v, t, m) {
      if DrawnFrom(o, d, v, t, m) {
        DrawnIsNoMismatch(o, mapping, blueprint, bundle, d, v, t, m);
      }
    }
  }

  lemma OpportunityDefects(o: Opportunity, mapping: Mapping, blueprint: Blueprint, bundle: Bundle)
    requires UniqueBlueprint(blueprint) && o in mapping.opportunities
    ensures o.submissionId != mapping.submissionId ==> Defect(CrossSubmissionEvidence, mapping, blueprint, bundle)
    ensures !NoDup(o.evidenceIds) ==> Defect(DuplicateId, mapping, blueprint, bundle)
    ensures var ix := BlueprintIndex(blueprint);
            (o.dimensionId !in ix.dimensions || o.variantId !in ix.variants || o.templateId !in ix.templates ==>
               Defect(InventedId, mapping, blueprint, bundle))
            && (o.variantId in ix.variants && o.templateId in ix.templates
                && (o.operation !in ix.variants[o.variantId].operations || o.operation != ix.templates[o.templateId].operation) ==>
                  Defect(UnsupportedCognitiveOperation, mapping, blueprint, bundle))
    ensures var byPath := MatchesByPath(mapping.matches);
            (o.dimensionId, o.variantId) in byPath && !(Elems(o.evidenceIds) <= Elems(byPath[(o.dimensionId, o.variantId)].evidenceIds)) ==>
              Defect(UnauthorizedEvidence, mapping, blueprint, bundle)
  {
    hide UniqueBlueprint, BlueprintIndex, NoDup, MatchesByPath, Elems;
    var ix, byPath := BlueprintIndex(blueprint), MatchesByPath(mapping.matches);
    NotInIndex(blueprint, o.dimensionId);
    NotInIndex(blueprint, o.variantId);
    NotInIndex(blueprint, o.templateId);
    assert NamesDimension(mapping, o.dimensionId) && NamesVariant(mapping, o.variantId);
    if o.variantId in ix.variants && o.templateId in ix.templates
       && (o.operation !in ix.variants[o.variantId].operations || o.operation != ix.templates[o.templateId].operation) {
      OperationRaises(o, mapping, blueprint);
    }
    if (o.dimensionId, o.variantId) in byPath {
      var m := byPath[(o.dimensionId, o.variantId)];
      if !(Elems(o.evidenceIds) <= Elems(m.evidenceIds)) {
        Widened(o.evidenceIds, m.evidenceIds);
      }
    }
  }

  lemma Widened(a: seq<string>, b: seq<string>)
    requires !(Elems(a) <= Elems(b))
    ensures exists id :: id in a && id !in b
  {
  }

  lemma DrawnIsNoMismatch(o: Opportunity, mapping: Mapping, blueprint: Blueprint, bundle: Bundle,
                          d: Dimension, v: Variant, t: Template, m: VariantMatch)
    requires NoDup(UnitIds(bundle.units)) && UniqueBlueprint(blueprint) && NoDup(MatchPaths(mapping.matches))
    requires OnPath(blueprint, d, v) && m in mapping.matches && DrawnFrom(o, d, v, t, m)
    ensures CheckOpportunity(o, mapping.submissionId, BlueprintIndex(blueprint), MatchesByPath(mapping.matches), EvidenceById(bundle.units))
            != Fail(BlueprintReferenceMismatch)
  {
    hide UniqueBlueprint, BlueprintIndex, EvidenceById, NoDup, UnitIds, MatchesByPath, MatchPaths, CheckRequirement, Elems;
    DrawnPasses(o, d, v, t, m, mapping, blueprint);
    if forall id :: id in o.evidenceIds ==> id in EvidenceById(bundle.units) {
      RequirementCodes(o.evidenceIds, v.requirement, EvidenceById(bundle.units));
    }
  }

  lemma RequirementCodes(ids: seq<string>, r: Requirement, evidence: map<string, EvidenceUnit>)
    requires forall id :: id in ids ==> id in evidence
    ensures CheckRequirement(ids, r, evidence) in {Pass, Fail(InsufficientEvidence), Fail(EvidenceModalityMismatch), Fail(EvidenceConfidenceLow)}
  {
  }

  // ---- The whole map ----

  /** Whatever error a map is refused with, the map, the blueprint or the bundle has the
      defect that the error names: no refusal blames what is in order. */
  lemma RefusalNamesADefect(mapping: Mapping, blueprint: Blueprint, bundle: Bundle)
    requires UniqueBlueprint(blueprint) && NoDup(UnitIds(bundle.units))
    ensures var r := CheckEvidenceMap(mapping, blueprint, bundle);
            r.Fail? ==> Defect(r.error, mapping, blueprint, bundle)
  {
    hide UniqueBlueprint, NoDup, UnitIds, Defect, CheckClaims, CheckMatches, CheckOpportunities, MatchPaths, ClaimIds,
         BlueprintIndex, EvidenceById, MatchesByPath, CheckEvidenceContext, CheckCompleteDiagnostics;
    var ix, evidence, byPath := BlueprintIndex(blueprint), EvidenceById(bundle.units), MatchesByPath(mapping.matches);
    SmallDefects(mapping, blueprint, bundle);
    if CheckEvidenceContext(bundle).Fail? {
      ContextRaises(mapping, blueprint, bundle);
    } else if mapping.status == Ready {
      if CheckClaims(mapping.claims, ix, evidence).Fail? {
        var c := RaisingClaim(mapping.claims, ix, evidence);
        ClaimRaises(c, mapping, blueprint, bundle);
      } else if CheckMatches(mapping.matches, ix, evidence).Fail? {
        var m := RaisingMatch(mapping.matches, ix, evidence);
        MatchRaises(m, mapping, blueprint, bundle);
      } else if NoDup(MatchPaths(mapping.matches)) && CheckOpportunities(mapping.opportunities, mapping.submissionId, ix, byPath, evidence).Fail? {
        var o := RaisingOpportunity(mapping.opportunities, mapping.submissionId, ix, byPath, evidence);
        OpportunityRaises(o, mapping, blueprint, bundle);
      }
    } else {
      DiagnosticsAccepted(mapping.diagnostics, mapping.status, true);
    }
  }

  lemma SmallDefects(mapping: Mapping, blueprint: Blueprint, bundle: Bundle)
    ensures mapping.submissionId != bundle.submissionId ==> Defect(CrossSubmissionEvidence, mapping, blueprint, bundle)
    ensures !NoDup(ClaimIds(mapping.claims)) || !NoDup(MatchPaths(mapping.matches)) ==> Defect(DuplicateId, mapping, blueprint, bundle)
    ensures mapping.status != Ready && !(mapping.opportunities == [] && mapping.claims == [] && mapping.matches == []) ==>
              Defect(PartialAssessmentForbidden, mapping, blueprint, bundle)
    ensures mapping.status != Ready && CheckCompleteDiagnostics(mapping.diagnostics, mapping.status, true).Fail? ==>
              Defect(DiagnosticIncomplete, mapping, blueprint, bundle)
  {
    hide NoDup, ClaimIds, MatchPaths, CheckCompleteDiagnostics, Final;
    DiagnosticsAccepted(mapping.diagnostics, mapping.status, true);
  }

  lemma ContextRaises(mapping: Mapping, blueprint: Blueprint, bundle: Bundle)
    requires CheckEvidenceContext(bundle).Fail?
    ensures Defect(CheckEvidenceContext(bundle).error, mapping, blueprint, bundle)
  {
    hide EvidenceById, UnitIds, Elems;
    AllowlistMeans(bundle);
    if CheckUnits(bundle.units, bundle).Fail? {
      var u := RaisingUnit(bundle.units, bundle);
    }
  }

  lemma AllowlistMeans(bundle: Bundle)
    ensures EvidenceById(bundle.units).Keys == Elems(UnitIds(bundle.units))
  {
    hide EvidenceById, UnitIds;
    KnownIds(bundle.units);
    assert forall id :: id in EvidenceById(bundle.units).Keys <==> id in Elems(UnitIds(bundle.units));
  }
}
