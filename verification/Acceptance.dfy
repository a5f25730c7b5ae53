/** What `validate_evidence_map` accepts, told in terms of the blueprint and the
    bundle: no index, no path table and no order of the checks. */
module Acceptance {
  import opened Orders
  import opened Results
  import opened Contracts
  import opened Validation

  // ---- Model validators of the blueprint and the bundle ----

  function TemplateIds(templates: seq<Template>): seq<string> {
    if templates == [] then [] else [templates[0].templateId] + TemplateIds(templates[1..])
  }

  function VariantIds(variants: seq<Variant>): seq<string> {
    if variants == [] then [] else [variants[0].variantId] + VariantIds(variants[1..])
  }

  function VariantTemplateIds(variants: seq<Variant>): seq<string> {
    if variants == [] then [] else TemplateIds(variants[0].templates) + VariantTemplateIds(variants[1..])
  }

  function AllVariantIds(dimensions: seq<Dimension>): seq<string> {
    if dimensions == [] then [] else VariantIds(dimensions[0].variants) + AllVariantIds(dimensions[1..])
  }

  function AllTemplateIds(dimensions: seq<Dimension>): seq<string> {
    if dimensions == [] then [] else VariantTemplateIds(dimensions[0].variants) + AllTemplateIds(dimensions[1..])
  }

  /** The identifier checks of `blueprint_is_consistent`. */
  predicate UniqueBlueprint(blueprint: Blueprint) {
    && NoDup(DimensionIds(blueprint.dimensions))
    && NoDup(AllVariantIds(blueprint.dimensions))
    && NoDup(AllTemplateIds(blueprint.dimensions))
  }

  function UnitIds(units: seq<EvidenceUnit>): (ids: seq<string>)
    ensures |ids| == |units| && forall i :: 0 <= i < |ids| ==> ids[i] == units[i].evidenceId
  {
    seq(|units|, i requires 0 <= i < |units| => units[i].evidenceId)
  }

  // ---- The index is the blueprint ----

  ghost predicate TemplatesFiled(ix: Index, variantId: string, templates: seq<Template>) {
    forall t :: t in templates ==>
      t.templateId in ix.templates && ix.templates[t.templateId] == t
      && t.templateId in ix.templateVariant && ix.templateVariant[t.templateId] == variantId
  }

  ghost predicate VariantFiled(ix: Index, dimensionId: string, v: Variant) {
    && v.variantId in ix.variants && ix.variants[v.variantId] == v
    && v.variantId in ix.variantDimension && ix.variantDimension[v.variantId] == dimensionId
    && TemplatesFiled(ix, v.variantId, v.templates)
  }

  ghost predicate DimensionFiled(ix: Index, d: Dimension) {
    && d.dimensionId in ix.dimensions && ix.dimensions[d.dimensionId] == d
    && forall v :: v in d.variants ==> VariantFiled(ix, d.dimensionId, v)
  }

  /** Outside the named identifiers the index is as it was. */
  ghost predicate SameOutside(before: Index, after: Index, dimensionIds: seq<string>, variantIds: seq<string>, templateIds: seq<string>) {
    && (forall id :: id !in dimensionIds ==> Agree(before.dimensions, after.dimensions, id))
    && (forall id :: id !in variantIds ==> Agree(before.variants, after.variants, id) && Agree(before.variantDimension, after.variantDimension, id))
    && (forall id :: id !in templateIds ==> Agree(before.templates, after.templates, id) && Agree(before.templateVariant, after.templateVariant, id))
  }

  predicate Agree<V(==)>(a: map<string, V>, b: map<string, V>, id: string) {
    (id in a <==> id in b) && (id in a ==> a[id] == b[id])
  }

  lemma NoDupParts<T>(a: seq<T>, b: seq<T>)
    requires NoDup(a + b)
    ensures NoDup(a) && NoDup(b) && forall x :: x in a ==> x !in b
  {
    assert forall i :: 0 <= i < |a| ==> (a + b)[i] == a[i];
    assert forall i :: 0 <= i < |b| ==> (a + b)[|a| + i] == b[i];
  }

  lemma {:induction false} TemplatesIndexed(ix: Index, variantId: string, templates: seq<Template>)
    requires NoDup(TemplateIds(templates))
    ensures var r := AddTemplates(ix, variantId, templates);
            SameOutside(ix, r, [], [], TemplateIds(templates)) && TemplatesFiled(r, variantId, templates)
    decreases templates
  {
    if templates != [] {
      var t, rest := templates[0], templates[1..];
      NoDupParts([t.templateId], TemplateIds(rest));
      var added := ix.(templates := ix.templates[t.templateId := t], templateVariant := ix.templateVariant[t.templateId := variantId]);
      TemplatesIndexed(added, variantId, rest);
      var r := AddTemplates(added, variantId, rest);
      assert Agree(added.templates, r.templates, t.templateId) && Agree(added.templateVariant, r.templateVariant, t.templateId);
      assert forall x :: x in templates <==> x == t || x in rest;
    }
  }

  lemma {:induction false} IdsOfTemplates(templates: seq<Template>)
    ensures forall id :: id in TemplateIds(templates) <==> exists t :: t in templates && t.templateId == id
  {
    if templates != [] {
      IdsOfTemplates(templates[1..]);
    }
  }

  lemma {:induction false} IdsOfVariants(variants: seq<Variant>)
    ensures forall id :: id in VariantIds(variants) <==> exists v :: v in variants && v.variantId == id
    ensures forall id :: id in VariantTemplateIds(variants) <==> exists v, t :: v in variants && t in v.templates && t.templateId == id
  {
    if variants != [] {
      IdsOfVariants(variants[1..]);
      IdsOfTemplates(variants[0].templates);
      assert forall v :: v in variants <==> v == variants[0] || v in variants[1..];
    }
  }

  lemma {:induction false} IdsOfDimensions(dimensions: seq<Dimension>)
    ensures forall id :: id in AllVariantIds(dimensions) <==> exists d, v :: d in dimensions && v in d.variants && v.variantId == id
    ensures forall id :: id in AllTemplateIds(dimensions) <==>
              exists d, v, t :: d in dimensions && v in d.variants && t in v.templates && t.templateId == id
  {
    if dimensions != [] {
      IdsOfDimensions(dimensions[1..]);
      IdsOfVariants(dimensions[0].variants);
      assert forall d :: d in dimensions <==> d == dimensions[0] || d in dimensions[1..];
    }
  }

  /** What is filed under other identifiers stays filed. */
  lemma VariantStaysFiled(before: Index, after: Index, dimensionId: string, v: Variant,
                          dimensionIds: seq<string>, variantIds: seq<string>, templateIds: seq<string>)
    requires VariantFiled(before, dimensionId, v) && SameOutside(before, after, dimensionIds, variantIds, templateIds)
    requires v.variantId !in variantIds && forall t :: t in v.templates ==> t.templateId !in templateIds
    ensures VariantFiled(after, dimensionId, v)
  {
    forall t | t in v.templates
      ensures t.templateId in after.templates && after.templates[t.templateId] == t
      ensures t.templateId in after.templateVariant && after.templateVariant[t.templateId] == v.variantId
    {
      assert Agree(before.templates, after.templates, t.templateId);
      assert Agree(before.templateVariant, after.templateVariant, t.templateId);
    }
  }

  lemma SameOutsideTwice(a: Index, b: Index, c: Index, d1: seq<string>, v1: seq<string>, t1: seq<string>,
                         d2: seq<string>, v2: seq<string>, t2: seq<string>)
    requires SameOutside(a, b, d1, v1, t1) && SameOutside(b, c, d2, v2, t2)
    ensures SameOutside(a, c, d1 + d2, v1 + v2, t1 + t2)
  {
  }

  lemma {:induction false} VariantsIndexed(ix: Index, dimensionId: string, variants: seq<Variant>)
    requires NoDup(VariantIds(variants)) && NoDup(VariantTemplateIds(variants))
    ensures var r := AddVariants(ix, dimensionId, variants);
            SameOutside(ix, r, [], VariantIds(variants), VariantTemplateIds(variants))
            && forall v :: v in variants ==> VariantFiled(r, dimensionId, v)
    decreases variants
  {
    hide SameOutside, VariantFiled, NoDup;
    if variants == [] {
      NothingChanged(ix);
    } else {
      var v, rest := variants[0], variants[1..];
      NoDupParts([v.variantId], VariantIds(rest));
      NoDupParts(TemplateIds(v.templates), VariantTemplateIds(rest));
      var mid := AddTemplates(ix.(variants := ix.variants[v.variantId := v],
                                  variantDimension := ix.variantDimension[v.variantId := dimensionId]), v.variantId, v.templates);
      VariantIndexed(ix, dimensionId, v);
      VariantsIndexed(mid, dimensionId, rest);
      var r := AddVariants(mid, dimensionId, rest);
      SameOutsideTwice(ix, mid, r, [], [v.variantId], TemplateIds(v.templates), [], VariantIds(rest), VariantTemplateIds(rest));
      var none: seq<string> := [];
      assert none + none == none;
      IdsOfTemplates(v.templates);
      VariantStaysFiled(mid, r, dimensionId, v, [], VariantIds(rest), VariantTemplateIds(rest));
      assert forall x :: x in variants <==> x == v || x in rest;
    }
  }

  lemma NothingChanged(ix: Index)
    ensures SameOutside(ix, ix, [], [], [])
  {
  }

  lemma VariantIndexed(ix: Index, dimensionId: string, v: Variant)
    requires NoDup(TemplateIds(v.templates))
    ensures var r := AddTemplates(ix.(variants := ix.variants[v.variantId := v],
                                      variantDimension := ix.variantDimension[v.variantId := dimensionId]), v.variantId, v.templates);
            SameOutside(ix, r, [], [v.variantId], TemplateIds(v.templates)) && VariantFiled(r, dimensionId, v)
  {
    var added := ix.(variants := ix.variants[v.variantId := v], variantDimension := ix.variantDimension[v.variantId := dimensionId]);
    TemplatesIndexed(added, v.variantId, v.templates);
    var r := AddTemplates(added, v.variantId, v.templates);
    assert Agree(added.variants, r.variants, v.variantId) && Agree(added.variantDimension, r.variantDimension, v.variantId);
    hide AddTemplates;
  }

  lemma {:induction false} DimensionsIndexed(ix: Index, dimensions: seq<Dimension>)
    requires NoDup(DimensionIds(dimensions)) && NoDup(AllVariantIds(dimensions)) && NoDup(AllTemplateIds(dimensions))
    ensures var r := AddDimensions(ix, dimensions);
            SameOutside(ix, r, DimensionIds(dimensions), AllVariantIds(dimensions), AllTemplateIds(dimensions))
            && forall d :: d in dimensions ==> DimensionFiled(r, d)
    decreases dimensions
  {
    hide SameOutside, VariantFiled, NoDup, DimensionFiled;
    if dimensions == [] {
      NothingChanged(ix);
      assert DimensionIds(dimensions) == [];
    } else {
      var d, rest := dimensions[0], dimensions[1..];
      assert DimensionIds(dimensions) == [d.dimensionId] + DimensionIds(rest);
      NoDupParts([d.dimensionId], DimensionIds(rest));
      NoDupParts(VariantIds(d.variants), AllVariantIds(rest));
      NoDupParts(VariantTemplateIds(d.variants), AllTemplateIds(rest));
      var mid := AddVariants(ix.(dimensions := ix.dimensions[d.dimensionId := d]), d.dimensionId, d.variants);
      DimensionIndexed(ix, d);
      DimensionsIndexed(mid, rest);
      var r := AddDimensions(mid, rest);
      SameOutsideTwice(ix, mid, r, [d.dimensionId], VariantIds(d.variants), VariantTemplateIds(d.variants),
                       DimensionIds(rest), AllVariantIds(rest), AllTemplateIds(rest));
      DimensionStaysFiled(mid, r, d, rest);
      assert forall x :: x in dimensions <==> x == d || x in rest;
    }
  }

  lemma DimensionIndexed(ix: Index, d: Dimension)
    requires NoDup(VariantIds(d.variants)) && NoDup(VariantTemplateIds(d.variants))
    ensures var r := AddVariants(ix.(dimensions := ix.dimensions[d.dimensionId := d]), d.dimensionId, d.variants);
            SameOutside(ix, r, [d.dimensionId], VariantIds(d.variants), VariantTemplateIds(d.variants)) && DimensionFiled(r, d)
  {
    var added := ix.(dimensions := ix.dimensions[d.dimensionId := d]);
    VariantsIndexed(added, d.dimensionId, d.variants);
    var r := AddVariants(added, d.dimensionId, d.variants);
    assert Agree(added.dimensions, r.dimensions, d.dimensionId);
    hide AddVariants, VariantFiled;
  }

  lemma DimensionStaysFiled(before: Index, after: Index, d: Dimension, rest: seq<Dimension>)
    requires DimensionFiled(before, d)
    requires SameOutside(before, after, DimensionIds(rest), AllVariantIds(rest), AllTemplateIds(rest))
    requires d.dimensionId !in DimensionIds(rest)
    requires forall id :: id in VariantIds(d.variants) ==> id !in AllVariantIds(rest)
    requires forall id :: id in VariantTemplateIds(d.variants) ==> id !in AllTemplateIds(rest)
    ensures DimensionFiled(after, d)
  {
    hide VariantFiled;
    assert Agree(before.dimensions, after.dimensions, d.dimensionId);
    IdsOfVariants(d.variants);
    forall v | v in d.variants ensures VariantFiled(after, d.dimensionId, v) {
      assert v.variantId in VariantIds(d.variants);
      assert forall t :: t in v.templates ==> t.templateId in VariantTemplateIds(d.variants);
      VariantStaysFiled(before, after, d.dimensionId, v, DimensionIds(rest), AllVariantIds(rest), AllTemplateIds(rest));
    }
  }

  /** The index holds the blueprint and nothing else: every dimension, variant and
      template under its own identifier and below its own parent. */
  lemma IndexIsBlueprint(blueprint: Blueprint)
    requires UniqueBlueprint(blueprint)
    ensures var ix := BlueprintIndex(blueprint);
            (forall d :: d in blueprint.dimensions ==> DimensionFiled(ix, d))
            && (forall id :: id in ix.dimensions ==> exists d :: d in blueprint.dimensions && d.dimensionId == id)
            && (forall id :: id in ix.variants || id in ix.variantDimension ==>
                  exists d, v :: d in blueprint.dimensions && v in d.variants && v.variantId == id)
            && (forall id :: id in ix.templates || id in ix.templateVariant ==>
                  exists d, v, t :: d in blueprint.dimensions && v in d.variants && t in v.templates && t.templateId == id)
  {
    hide AddDimensions, DimensionFiled, NoDup;
    var ix, ds := BlueprintIndex(blueprint), blueprint.dimensions;
    DimensionsIndexed(EMPTY_INDEX, ds);
    IdsOfDimensions(ds);
    forall id | id in ix.dimensions ensures exists d :: d in ds && d.dimensionId == id {
      assert !Agree(EMPTY_INDEX.dimensions, ix.dimensions, id);
      var k :| 0 <= k < |ds| && DimensionIds(ds)[k] == id;
      assert ds[k] in ds;
    }
    forall id | id in ix.variants || id in ix.variantDimension ensures id in AllVariantIds(ds) {
      assert !Agree(EMPTY_INDEX.variants, ix.variants, id) || !Agree(EMPTY_INDEX.variantDimension, ix.variantDimension, id);
    }
    forall id | id in ix.templates || id in ix.templateVariant ensures id in AllTemplateIds(ds) {
      assert !Agree(EMPTY_INDEX.templates, ix.templates, id) || !Agree(EMPTY_INDEX.templateVariant, ix.templateVariant, id);
    }
  }

  // ---- Evidence requirements, on the units themselves ----

  /** Every identifier names a unit of an allowed modality above the floor, there
      are enough of them, and from two artifacts where that is asked. */
  ghost predicate Fits(ids: seq<string>, r: Requirement, units: seq<EvidenceUnit>) {
    && (forall id :: id in ids ==>
          exists u :: u in units && u.evidenceId == id && u.modality in r.modalities && u.confidence >= r.minExtractionConfidence)
    && |Elems(ids)| >= r.minDistinctUnits
    && (r.crossArtifact ==>
          exists u, w :: u in units && w in units && u.evidenceId in ids && w.evidenceId in ids && u.artifactId != w.artifactId)
  }

  lemma UnitById(units: seq<EvidenceUnit>, u: EvidenceUnit)
    requires NoDup(UnitIds(units)) && u in units
    ensures u.evidenceId in EvidenceById(units) && EvidenceById(units)[u.evidenceId] == u
  {
    hide EvidenceById;
    var w := EvidenceById(units)[u.evidenceId];
    var i :| 0 <= i < |units| && units[i] == u;
    var j :| 0 <= j < |units| && units[j] == w;
    hide UnitIds;
    assert UnitIds(units)[i] == u.evidenceId == UnitIds(units)[j];
  }

  lemma TwoMembers<T>(s: set<T>)
    ensures |s| >= 2 <==> exists x, y :: x in s && y in s && x != y
  {
    if |s| >= 2 {
      var x :| x in s;
      assert |s - {x}| >= 1;
      var y :| y in s - {x};
      assert x in s && y in s && x != y;
    }
    if x, y :| x in s && y in s && x != y {
      assert |s - {x}| >= 1 && |s| == |s - {x}| + 1;
    }
  }

  lemma UnitsFiled(units: seq<EvidenceUnit>)
    requires NoDup(UnitIds(units))
    ensures var m := EvidenceById(units);
            (forall u :: u in units ==> u.evidenceId in m && m[u.evidenceId] == u)
            && forall id :: id in m ==> m[id] in units && m[id].evidenceId == id
  {
    hide EvidenceById, NoDup;
    forall u | u in units ensures u.evidenceId in EvidenceById(units) && EvidenceById(units)[u.evidenceId] == u {
      UnitById(units, u);
    }
  }

  lemma ArtifactsDiffer(ids: seq<string>, units: seq<EvidenceUnit>)
    requires NoDup(UnitIds(units))
    ensures var m := EvidenceById(units);
            |set id | id in ids && id in m :: m[id].artifactId| >= 2
            <==> exists u, w :: u in units && w in units && u.evidenceId in ids && w.evidenceId in ids && u.artifactId != w.artifactId
  {
    hide EvidenceById, NoDup, UnitIds;
    UnitsFiled(units);
    var m := EvidenceById(units);
    var artifacts := set id | id in ids && id in m :: m[id].artifactId;
    TwoMembers(artifacts);
    if x, y :| x in artifacts && y in artifacts && x != y {
      var a :| a in ids && a in m && m[a].artifactId == x;
      var b :| b in ids && b in m && m[b].artifactId == y;
      assert m[a] in units && m[b] in units && m[a].artifactId != m[b].artifactId;
    }
    if u, w :| u in units && w in units && u.evidenceId in ids && w.evidenceId in ids && u.artifactId != w.artifactId {
      assert u.artifactId in artifacts && w.artifactId in artifacts;
    }
  }

  lemma MeetsMeansFits(ids: seq<string>, r: Requirement, units: seq<EvidenceUnit>)
    requires NoDup(UnitIds(units))
    ensures Meets(ids, r, EvidenceById(units)) <==> Fits(ids, r, units)
  {
    hide EvidenceById, NoDup, UnitIds;
    UnitsFiled(units);
    ArtifactsDiffer(ids, units);
    var m := EvidenceById(units);
    forall id ensures id in m && m[id].modality in r.modalities && m[id].confidence >= r.minExtractionConfidence
                 <==> exists u :: u in units && u.evidenceId == id && u.modality in r.modalities && u.confidence >= r.minExtractionConfidence {
    }
  }

  // ---- What an evidence map has to be ----

  ghost predicate ContextInOrder(bundle: Bundle) {
    && Elems(bundle.allowedEvidenceIds) == Elems(UnitIds(bundle.units))
    && (forall u :: u in bundle.units ==> OwnUnit(bundle, u))
    && (bundle.contextMode == Closed ==> bundle.sourceIds == [])
  }

  lemma ContextPasses(bundle: Bundle)
    ensures CheckEvidenceContext(bundle).Pass? <==> ContextInOrder(bundle)
  {
    UnitsOwned(bundle.units, bundle);
    var m := EvidenceById(bundle.units);
    forall id ensures id in m.Keys <==> id in Elems(UnitIds(bundle.units)) {
      if id in m {
        var i :| 0 <= i < |bundle.units| && bundle.units[i] == m[id];
        assert UnitIds(bundle.units)[i] == id;
      }
      if id in UnitIds(bundle.units) {
        var i :| 0 <= i < |bundle.units| && UnitIds(bundle.units)[i] == id;
        assert bundle.units[i] in bundle.units;
      }
    }
    assert m.Keys == Elems(UnitIds(bundle.units));
    hide OwnUnit, EvidenceById;
  }

  /** `v` stands below `d` in the blueprint. */
  ghost predicate OnPath(blueprint: Blueprint, d: Dimension, v: Variant) {
    d in blueprint.dimensions && v in d.variants
  }

  /** All of the alignment lies below one dimension. */
  ghost predicate AlignmentFits(a: Alignment, blueprint: Blueprint) {
    exists d :: d in blueprint.dimensions && d.dimensionId == a.dimensionId && Elems(a.criterionIds) <= Elems(d.criterionIds)
                && forall id :: id in a.variantIds ==> exists v :: OnPath(blueprint, d, v) && v.variantId == id
  }

  ghost predicate ClaimFits(claim: Claim, blueprint: Blueprint, bundle: Bundle) {
    && (forall id :: id in claim.evidenceIds ==> id in UnitIds(bundle.units))
    && (forall a :: a in claim.alignments ==> AlignmentFits(a, blueprint))
    && forall op :: op in claim.operations ==> Backed(claim, blueprint, op)
  }

  /** Some variant that the claim is aligned with supports the operation. */
  ghost predicate Backed(claim: Claim, blueprint: Blueprint, op: string) {
    exists a, d, v :: a in claim.alignments && OnPath(blueprint, d, v) && v.variantId in a.variantIds && op in v.operations
  }

  ghost predicate MatchFits(m: VariantMatch, blueprint: Blueprint, bundle: Bundle) {
    NoDup(m.evidenceIds)
    && exists d, v :: OnPath(blueprint, d, v) && d.dimensionId == m.dimensionId && v.variantId == m.variantId
         && m.confidence >= v.requirement.minAlignment && Fits(m.evidenceIds, v.requirement, bundle.units)
  }

  /** The opportunity is its template on its blueprint path, with the fit and some
      of the evidence of a match on that path. */
  ghost predicate DrawnFrom(o: Opportunity, d: Dimension, v: Variant, t: Template, m: VariantMatch) {
    && d.dimensionId == o.dimensionId == m.dimensionId && v.variantId == o.variantId == m.variantId
    && t in v.templates && t.templateId == o.templateId
    && o.focus == t.focus && o.observable == t.observable && o.difficulty == t.difficulty && o.targetMinutes == t.targetMinutes
    && o.anchorStructures == t.anchorStructures && o.responseFormats == t.responseFormats
    && o.justificationRequired == t.justificationRequired && o.activityPriority == d.priority
    && o.operation == t.operation && o.operation in v.operations
    && o.evidenceFit == m.fit && Elems(o.evidenceIds) <= Elems(m.evidenceIds)
  }

  ghost predicate OpportunityFits(o: Opportunity, mapping: Mapping, blueprint: Blueprint, bundle: Bundle) {
    && o.submissionId == mapping.submissionId && NoDup(o.evidenceIds)
    && exists d, v, t, m :: OnPath(blueprint, d, v) && m in mapping.matches && DrawnFrom(o, d, v, t, m)
         && Fits(o.evidenceIds, v.requirement, bundle.units)
  }

  lemma {:induction false} MatchesFiled(matches: seq<VariantMatch>)
    requires NoDup(MatchPaths(matches))
    ensures forall m :: m in matches ==>
              (m.dimensionId, m.variantId) in MatchesByPath(matches) && MatchesByPath(matches)[(m.dimensionId, m.variantId)] == m
  {
    if matches != [] {
      var before, last := matches[..|matches|-1], matches[|matches|-1];
      assert MatchPaths(before) == MatchPaths(matches)[..|matches|-1];
      MatchesFiled(before);
      forall m | m in matches
        ensures (m.dimensionId, m.variantId) in MatchesByPath(matches) && MatchesByPath(matches)[(m.dimensionId, m.variantId)] == m
      {
        if m != last {
          var i :| 0 <= i < |matches| && matches[i] == m;
          assert MatchPaths(matches)[i] != MatchPaths(matches)[|matches|-1];
          assert m in before;
        }
      }
    }
  }

  // ---- The index tells the same ----

  /** Identifiers lead to the blueprint objects that carry them. */
  lemma FiledVariant(blueprint: Blueprint, d: Dimension, v: Variant)
    requires UniqueBlueprint(blueprint) && OnPath(blueprint, d, v)
    ensures var ix := BlueprintIndex(blueprint);
            d.dimensionId in ix.dimensions && ix.dimensions[d.dimensionId] == d && VariantFiled(ix, d.dimensionId, v)
  {
    hide UniqueBlueprint, BlueprintIndex, VariantFiled;
    IndexIsBlueprint(blueprint);
    assert DimensionFiled(BlueprintIndex(blueprint), d);
  }

  /** A variant identifier of the index filed below a dimension identifier is a
      variant below that dimension. */
  lemma VariantOfIndex(blueprint: Blueprint, dimensionId: string, variantId: string) returns (d: Dimension, v: Variant)
    requires UniqueBlueprint(blueprint)
    requires var ix := BlueprintIndex(blueprint);
             variantId in ix.variants && variantId in ix.variantDimension && ix.variantDimension[variantId] == dimensionId
    ensures OnPath(blueprint, d, v) && d.dimensionId == dimensionId && v.variantId == variantId
    ensures var ix := BlueprintIndex(blueprint);
            ix.variants[variantId] == v && dimensionId in ix.dimensions && ix.dimensions[dimensionId] == d
  {
    hide UniqueBlueprint, BlueprintIndex;
    IndexIsBlueprint(blueprint);
    d, v :| d in blueprint.dimensions && v in d.variants && v.variantId == variantId;
    FiledVariant(blueprint, d, v);
  }

  lemma DimensionOfIndex(blueprint: Blueprint, dimensionId: string) returns (d: Dimension)
    requires UniqueBlueprint(blueprint) && dimensionId in BlueprintIndex(blueprint).dimensions
    ensures d in blueprint.dimensions && d.dimensionId == dimensionId && BlueprintIndex(blueprint).dimensions[dimensionId] == d
  {
    hide UniqueBlueprint, BlueprintIndex;
    IndexIsBlueprint(blueprint);
    d :| d in blueprint.dimensions && d.dimensionId == dimensionId;
    assert DimensionFiled(BlueprintIndex(blueprint), d);
  }

  lemma AlignedMeansFits(a: Alignment, blueprint: Blueprint)
    requires UniqueBlueprint(blueprint)
    ensures Aligned(a, BlueprintIndex(blueprint)) <==> AlignmentFits(a, blueprint)
  {
    hide UniqueBlueprint, BlueprintIndex;
    var ix := BlueprintIndex(blueprint);
    if Aligned(a, ix) {
      var d := DimensionOfIndex(blueprint, a.dimensionId);
      forall id | id in a.variantIds ensures exists v :: OnPath(blueprint, d, v) && v.variantId == id {
        var e, v := VariantOfIndex(blueprint, a.dimensionId, id);
        assert OnPath(blueprint, d, v);
      }
    }
    if AlignmentFits(a, blueprint) {
      IndexIsBlueprint(blueprint);
      var d :| d in blueprint.dimensions && d.dimensionId == a.dimensionId && Elems(a.criterionIds) <= Elems(d.criterionIds)
               && forall id :: id in a.variantIds ==> exists v :: OnPath(blueprint, d, v) && v.variantId == id;
      assert DimensionFiled(ix, d);
      forall id | id in a.variantIds ensures id in ix.variants && id in ix.variantDimension && ix.variantDimension[id] == a.dimensionId {
        var v :| OnPath(blueprint, d, v) && v.variantId == id;
        FiledVariant(blueprint, d, v);
      }
    }
  }

  lemma ClaimAdmissibleMeansFits(claim: Claim, blueprint: Blueprint, bundle: Bundle)
    requires UniqueBlueprint(blueprint) && NoDup(UnitIds(bundle.units))
    ensures ClaimAdmissible(claim, BlueprintIndex(blueprint), EvidenceById(bundle.units)) <==> ClaimFits(claim, blueprint, bundle)
  {
    hide UniqueBlueprint, BlueprintIndex, EvidenceById, Aligned, AlignmentFits, NoDup, UnitIds, Backed;
    var ix, evidence := BlueprintIndex(blueprint), EvidenceById(bundle.units);
    KnownIds(bundle.units);
    forall a ensures Aligned(a, ix) <==> AlignmentFits(a, blueprint) {
      AlignedMeansFits(a, blueprint);
    }
    if forall a :: a in claim.alignments ==> Aligned(a, ix) {
      forall op | op in claim.operations
        ensures (exists a, id :: a in claim.alignments && id in a.variantIds && id in ix.variants && op in ix.variants[id].operations)
           <==> Backed(claim, blueprint, op)
      {
        OperationSource(claim, blueprint, op);
      }
    }
  }

  lemma OperationSource(claim: Claim, blueprint: Blueprint, op: string)
    requires UniqueBlueprint(blueprint) && forall a :: a in claim.alignments ==> Aligned(a, BlueprintIndex(blueprint))
    ensures var ix := BlueprintIndex(blueprint);
            (exists a, id :: a in claim.alignments && id in a.variantIds && id in ix.variants && op in ix.variants[id].operations)
            <==> Backed(claim, blueprint, op)
  {
    hide UniqueBlueprint, BlueprintIndex;
    var ix := BlueprintIndex(blueprint);
    if a, id :| a in claim.alignments && id in a.variantIds && id in ix.variants && op in ix.variants[id].operations {
      assert Aligned(a, ix);
      var d, v := VariantOfIndex(blueprint, a.dimensionId, id);
      assert OnPath(blueprint, d, v) && v.variantId in a.variantIds;
    }
    if a, d, v :| a in claim.alignments && OnPath(blueprint, d, v) && v.variantId in a.variantIds && op in v.operations {
      FiledVariant(blueprint, d, v);
    }
  }

  lemma KnownIds(units: seq<EvidenceUnit>)
    ensures forall id :: id in EvidenceById(units) <==> id in UnitIds(units)
  {
    hide EvidenceById;
    forall id ensures id in EvidenceById(units) <==> id in UnitIds(units) {
      if id in EvidenceById(units) {
        var i :| 0 <= i < |units| && units[i] == EvidenceById(units)[id];
        assert UnitIds(units)[i] == id;
      }
      if id in UnitIds(units) {
        var i :| 0 <= i < |units| && UnitIds(units)[i] == id;
        assert units[i] in units;
      }
    }
  }

  lemma MatchAdmissibleMeansFits(m: VariantMatch, blueprint: Blueprint, bundle: Bundle)
    requires UniqueBlueprint(blueprint) && NoDup(UnitIds(bundle.units))
    ensures MatchAdmissible(m, BlueprintIndex(blueprint), EvidenceById(bundle.units)) <==> MatchFits(m, blueprint, bundle)
  {
    hide UniqueBlueprint, BlueprintIndex, EvidenceById, Meets, Fits, NoDup;
    var ix, evidence := BlueprintIndex(blueprint), EvidenceById(bundle.units);
    if MatchAdmissible(m, ix, evidence) {
      var d, v := VariantOfIndex(blueprint, m.dimensionId, m.variantId);
      MeetsMeansFits(m.evidenceIds, v.requirement, bundle.units);
    }
    if MatchFits(m, blueprint, bundle) {
      var d, v :| OnPath(blueprint, d, v) && d.dimensionId == m.dimensionId && v.variantId == m.variantId
                  && m.confidence >= v.requirement.minAlignment && Fits(m.evidenceIds, v.requirement, bundle.units);
      FiledVariant(blueprint, d, v);
      MeetsMeansFits(m.evidenceIds, v.requirement, bundle.units);
    }
  }

  lemma OpportunityAdmissibleMeansFits(o: Opportunity, mapping: Mapping, blueprint: Blueprint, bundle: Bundle)
    requires UniqueBlueprint(blueprint) && NoDup(UnitIds(bundle.units)) && NoDup(MatchPaths(mapping.matches))
    ensures OpportunityAdmissible(o, mapping.submissionId, BlueprintIndex(blueprint), MatchesByPath(mapping.matches), EvidenceById(bundle.units))
       <==> OpportunityFits(o, mapping, blueprint, bundle)
  {
    hide UniqueBlueprint, BlueprintIndex, EvidenceById, MatchesByPath, Meets, Fits, NoDup;
    var ix, evidence, byPath := BlueprintIndex(blueprint), EvidenceById(bundle.units), MatchesByPath(mapping.matches);
    MatchesFiled(mapping.matches);
    if OpportunityAdmissible(o, mapping.submissionId, ix, byPath, evidence) {
      var d, v := VariantOfIndex(blueprint, o.dimensionId, o.variantId);
      var t, m := ix.templates[o.templateId], byPath[(o.dimensionId, o.variantId)];
      TemplateOfIndex(blueprint, o.templateId);
      MeetsMeansFits(o.evidenceIds, v.requirement, bundle.units);
      assert DrawnFrom(o, d, v, t, m);
    }
    if OpportunityFits(o, mapping, blueprint, bundle) {
      var d, v, t, m :| OnPath(blueprint, d, v) && m in mapping.matches && DrawnFrom(o, d, v, t, m)
                        && Fits(o.evidenceIds, v.requirement, bundle.units);
      FiledVariant(blueprint, d, v);
      MeetsMeansFits(o.evidenceIds, v.requirement, bundle.units);
    }
  }

  lemma TemplateOfIndex(blueprint: Blueprint, templateId: string)
    requires UniqueBlueprint(blueprint) && templateId in BlueprintIndex(blueprint).templates
    ensures BlueprintIndex(blueprint).templates[templateId].templateId == templateId
  {
    hide UniqueBlueprint, BlueprintIndex, DimensionFiled;
    IndexIsBlueprint(blueprint);
    var d, v, t :| d in blueprint.dimensions && v in d.variants && t in v.templates && t.templateId == templateId;
    FiledVariant(blueprint, d, v);
  }

  lemma DistinctClaims(claims: seq<Claim>)
    ensures NoDup(ClaimIds(claims)) <==> forall i, j :: 0 <= i < j < |claims| ==> claims[i].claimId != claims[j].claimId
  {
    assert forall i :: 0 <= i < |claims| ==> ClaimIds(claims)[i] == claims[i].claimId;
  }

  lemma DistinctPaths(matches: seq<VariantMatch>)
    ensures NoDup(MatchPaths(matches)) <==>
              forall i, j :: 0 <= i < j < |matches| ==>
                matches[i].dimensionId + ":" + matches[i].variantId != matches[j].dimensionId + ":" + matches[j].variantId
  {
    var paths := MatchPaths(matches);
    assert forall i :: 0 <= i < |matches| ==> paths[i] == matches[i].dimensionId + ":" + matches[i].variantId;
  }

  // ---- Main results ----

  /** A READY map is accepted exactly when the bundle is in order and every claim,
      match and opportunity fits the blueprint. */
  lemma AcceptedIffItFitsTheBlueprint(mapping: Mapping, blueprint: Blueprint, bundle: Bundle)
    requires mapping.status == Ready && UniqueBlueprint(blueprint) && NoDup(UnitIds(bundle.units))
    ensures CheckEvidenceMap(mapping, blueprint, bundle).Pass? <==>
              && ContextInOrder(bundle) && mapping.submissionId == bundle.submissionId
              && (forall i, j :: 0 <= i < j < |mapping.claims| ==> mapping.claims[i].claimId != mapping.claims[j].claimId)
              && (forall i, j :: 0 <= i < j < |mapping.matches| ==>
                    mapping.matches[i].dimensionId + ":" + mapping.matches[i].variantId
                    != mapping.matches[j].dimensionId + ":" + mapping.matches[j].variantId)
              && (forall c :: c in mapping.claims ==> ClaimFits(c, blueprint, bundle))
              && (forall m :: m in mapping.matches ==> MatchFits(m, blueprint, bundle))
              && forall o :: o in mapping.opportunities ==> OpportunityFits(o, mapping, blueprint, bundle)
  {
    hide *;
    ReadyMapAccepted(mapping, blueprint, bundle);
    DistinctClaims(mapping.claims);
    DistinctPaths(mapping.matches);
    ContextPasses(bundle);
    var ix, evidence, byPath := BlueprintIndex(blueprint), EvidenceById(bundle.units), MatchesByPath(mapping.matches);
    forall c ensures ClaimAdmissible(c, ix, evidence) <==> ClaimFits(c, blueprint, bundle) {
      ClaimAdmissibleMeansFits(c, blueprint, bundle);
    }
    forall m ensures MatchAdmissible(m, ix, evidence) <==> MatchFits(m, blueprint, bundle) {
      MatchAdmissibleMeansFits(m, blueprint, bundle);
    }
    if NoDup(MatchPaths(mapping.matches)) {
      forall o ensures OpportunityAdmissible(o, mapping.submissionId, ix, byPath, evidence) <==> OpportunityFits(o, mapping, blueprint, bundle) {
        OpportunityAdmissibleMeansFits(o, mapping, blueprint, bundle);
      }
    }
  }

  lemma ClaimIdsMean(claims: seq<Claim>)
    ensures NoDup(ClaimIds(claims)) <==> NoDup(claims) && forall x, y :: x in claims && y in claims && x.claimId == y.claimId ==> x == y
  {
    var ids := ClaimIds(claims);
    if NoDup(ids) {
      forall x, y | x in claims && y in claims && x.claimId == y.claimId ensures x == y {
        var i, j :| 0 <= i < |claims| && 0 <= j < |claims| && claims[i] == x && claims[j] == y;
        assert ids[i] == ids[j];
      }
      forall i, j | 0 <= i < j < |claims| ensures claims[i] != claims[j] {
        assert ids[i] != ids[j];
      }
    } else {
      var i, j :| 0 <= i < j < |ids| && ids[i] == ids[j];
      assert claims[i] in claims && claims[j] in claims;
    }
  }

  lemma MatchPathsMean(matches: seq<VariantMatch>)
    ensures NoDup(MatchPaths(matches)) <==>
              NoDup(matches) && forall x, y :: x in matches && y in matches && MatchPath(x) == MatchPath(y) ==> x == y
  {
    hide MatchPath;
    var paths := MatchPaths(matches);
    if NoDup(paths) {
      forall x, y | x in matches && y in matches && MatchPath(x) == MatchPath(y) ensures x == y {
        var i, j :| 0 <= i < |matches| && 0 <= j < |matches| && matches[i] == x && matches[j] == y;
        assert paths[i] == paths[j];
      }
      forall i, j | 0 <= i < j < |matches| ensures matches[i] != matches[j] {
        assert paths[i] != paths[j];
      }
    } else {
      var i, j :| 0 <= i < j < |paths| && paths[i] == paths[j];
      assert matches[i] in matches && matches[j] in matches;
    }
  }

  /** The same map in another order: claims, matches and opportunities permuted. */
  ghost predicate Reordered(a: Mapping, b: Mapping) {
    && b == a.(claims := b.claims, matches := b.matches, opportunities := b.opportunities)
    && multiset(a.claims) == multiset(b.claims) && multiset(a.matches) == multiset(b.matches)
    && multiset(a.opportunities) == multiset(b.opportunities)
  }

  lemma ReorderedIds(a: Mapping, b: Mapping)
    requires Reordered(a, b)
    ensures NoDup(ClaimIds(a.claims)) ==> NoDup(ClaimIds(b.claims))
    ensures NoDup(MatchPaths(a.matches)) ==> NoDup(MatchPaths(b.matches))
  {
    hide NoDup, ClaimIds, MatchPaths, MatchPath;
    ClaimIdsMean(a.claims);
    ClaimIdsMean(b.claims);
    MatchPathsMean(a.matches);
    MatchPathsMean(b.matches);
    SameMembers(a.claims, b.claims);
    SameMembers(a.matches, b.matches);
    if NoDup(a.claims) {
      PermutationNoDup(a.claims, b.claims);
    }
    if NoDup(a.matches) {
      PermutationNoDup(a.matches, b.matches);
    }
  }

  /** With distinct paths the path table does not depend on the order. */
  lemma PathTableForgetsOrder(a: seq<VariantMatch>, b: seq<VariantMatch>)
    requires multiset(a) == multiset(b) && NoDup(MatchPaths(a)) && NoDup(MatchPaths(b))
    ensures MatchesByPath(a) == MatchesByPath(b)
  {
    hide MatchesByPath, MatchPaths, NoDup;
    SameMembers(a, b);
    MatchesFiled(a);
    MatchesFiled(b);
    var x, y := MatchesByPath(a), MatchesByPath(b);
    assert forall k :: k in x ==> k in y && y[k] == x[k];
    assert forall k :: k in y ==> k in x;
  }

  lemma ReorderedAccepted(a: Mapping, b: Mapping, blueprint: Blueprint, bundle: Bundle)
    requires Reordered(a, b) && a.status == Ready && CheckEvidenceMap(a, blueprint, bundle).Pass?
    ensures CheckEvidenceMap(b, blueprint, bundle).Pass?
  {
    hide *;
    ReorderedParts(a, b);
    ReadyMapAccepted(a, blueprint, bundle);
    ReadyMapAccepted(b, blueprint, bundle);
    ReorderedIds(a, b);
    PathTableForgetsOrder(a.matches, b.matches);
  }

  lemma ReorderedParts(a: Mapping, b: Mapping)
    requires Reordered(a, b)
    ensures b.status == a.status && b.submissionId == a.submissionId && multiset(a.matches) == multiset(b.matches) && Reordered(b, a)
    ensures b.diagnostics == a.diagnostics
    ensures forall c :: c in a.claims <==> c in b.claims
    ensures forall m :: m in a.matches <==> m in b.matches
    ensures forall o :: o in a.opportunities <==> o in b.opportunities
    ensures (a.claims == [] <==> b.claims == []) && (a.matches == [] <==> b.matches == []) && (a.opportunities == [] <==> b.opportunities == [])
  {
    SameMembers(a.claims, b.claims);
    SameMembers(a.matches, b.matches);
    SameMembers(a.opportunities, b.opportunities);
  }

  /** Listing claims, matches and opportunities in another order never changes the
      verdict on a map; it can only change which error is raised first. */
  lemma VerdictForgetsOrder(a: Mapping, b: Mapping, blueprint: Blueprint, bundle: Bundle)
    requires Reordered(a, b)
    ensures CheckEvidenceMap(a, blueprint, bundle).Pass? <==> CheckEvidenceMap(b, blueprint, bundle).Pass?
  {
    ReorderedParts(a, b);
    if a.status == Ready {
      hide *;
      if CheckEvidenceMap(a, blueprint, bundle).Pass? {
        ReorderedAccepted(a, b, blueprint, bundle);
      }
      if CheckEvidenceMap(b, blueprint, bundle).Pass? {
        ReorderedAccepted(b, a, blueprint, bundle);
      }
    } else {
      hide CheckEvidenceContext, CheckCompleteDiagnostics, Reordered;
    }
  }
}
