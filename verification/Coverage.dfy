/** Conservation of counts in assembled coverage and in coverage reports. */
module Coverage {
  import opened Orders
  import opened Results
  import opened Contracts
  import opened Planner
  import opened Validation
  import opened Pipeline
  import opened Provenance

  // ---- Counting by key ----

  function Count(keys: seq<string>, key: string): nat {
    if keys == [] then 0 else Count(keys[..|keys|-1], key) + if keys[|keys|-1] == key then 1 else 0
  }

  function Total(groups: seq<string>, keys: seq<string>): nat {
    if groups == [] then 0 else Count(keys, groups[0]) + Total(groups[1..], keys)
  }

  lemma {:induction false} TotalOfNothing(groups: seq<string>)
    ensures Total(groups, []) == 0
  {
    if groups != [] {
      TotalOfNothing(groups[1..]);
    }
  }

  lemma {:induction false} OneMoreKey(groups: seq<string>, keys: seq<string>, key: string)
    requires NoDup(groups)
    ensures Total(groups, keys + [key]) == Total(groups, keys) + if key in groups then 1 else 0
  {
    assert (keys + [key])[..|keys|] == keys;
    if groups != [] {
      OneMoreKey(groups[1..], keys, key);
      assert groups[0] !in groups[1..];
      assert key in groups <==> key == groups[0] || key in groups[1..];
    }
  }

  /** Group counts add up to the number of keys when the groups are distinct and
      every key has a group. */
  lemma {:induction false} GroupsPartition(groups: seq<string>, keys: seq<string>)
    requires NoDup(groups) && forall k :: k in keys ==> k in groups
    ensures Total(groups, keys) == |keys|
  {
    if keys == [] {
      TotalOfNothing(groups);
    } else {
      var before, last := keys[..|keys|-1], keys[|keys|-1];
      GroupsPartition(groups, before);
      OneMoreKey(groups, before, last);
      assert keys == before + [last];
    }
  }

  // ---- Assembled coverage ----

  function OpportunityDimensions(os: seq<Opportunity>): (ids: seq<string>)
    ensures |ids| == |os| && forall i :: 0 <= i < |ids| ==> ids[i] == os[i].dimensionId
  {
    seq(|os|, i requires 0 <= i < |os| => os[i].dimensionId)
  }

  function QuestionDimensions(questions: seq<Question>): (ids: seq<string>)
    ensures |ids| == |questions| && forall i :: 0 <= i < |ids| ==> ids[i] == questions[i].dimensionId
  {
    seq(|questions|, i requires 0 <= i < |questions| => questions[i].dimensionId)
  }

  function Available(items: seq<CoverageItem>): nat {
    if items == [] then 0 else items[0].opportunityCount + Available(items[1..])
  }

  function SelectedTotal(items: seq<CoverageItem>): nat {
    if items == [] then 0 else items[0].selectedCount + SelectedTotal(items[1..])
  }

  lemma {:induction false} InDimensionCounts(os: seq<Opportunity>, dimensionId: string)
    ensures |InDimension(os, dimensionId)| == Count(OpportunityDimensions(os), dimensionId)
  {
    if os != [] {
      InDimensionCounts(os[..|os|-1], dimensionId);
      assert OpportunityDimensions(os)[..|os|-1] == OpportunityDimensions(os[..|os|-1]);
    }
  }

  lemma {:induction false} QuestionsInDimensionCounts(questions: seq<Question>, dimensionId: string)
    ensures QuestionsInDimension(questions, dimensionId) == Count(QuestionDimensions(questions), dimensionId)
  {
    if questions != [] {
      QuestionsInDimensionCounts(questions[..|questions|-1], dimensionId);
      assert QuestionDimensions(questions)[..|questions|-1] == QuestionDimensions(questions[..|questions|-1]);
    }
  }

  lemma {:induction false} CoverageTotals(dimensions: seq<Dimension>, os: seq<Opportunity>, questions: seq<Question>)
    ensures Available(CoverageOf(dimensions, os, questions)) == Total(DimensionIds(dimensions), OpportunityDimensions(os))
    ensures SelectedTotal(CoverageOf(dimensions, os, questions)) == Total(DimensionIds(dimensions), QuestionDimensions(questions))
  {
    hide InDimension, QuestionsInDimension, OpportunityEvidence;
    if dimensions != [] {
      CoverageTotals(dimensions[1..], os, questions);
      InDimensionCounts(os, dimensions[0].dimensionId);
      QuestionsInDimensionCounts(questions, dimensions[0].dimensionId);
      assert DimensionIds(dimensions)[1..] == DimensionIds(dimensions[1..]);
      var all := CoverageOf(dimensions, os, questions);
      assert all[1..] == CoverageOf(dimensions[1..], os, questions);
    }
  }

  /** An accepted opportunity's dimension is one of the blueprint's. */
  lemma AcceptedDimensions(mapping: Mapping, blueprint: Blueprint, bundle: Bundle)
    requires mapping.status == Ready && CheckEvidenceMap(mapping, blueprint, bundle).Pass?
    ensures forall o :: o in mapping.opportunities ==> o.dimensionId in DimensionIds(blueprint.dimensions)
  {
    hide CheckEvidenceMap, CheckOpportunity, CheckEvidenceContext, NoDup;
    var ix, evidence, byPath := BlueprintIndex(blueprint), EvidenceById(bundle.units), MatchesByPath(mapping.matches);
    AcceptedReadyMap(mapping, blueprint, bundle);
    OpportunitiesPass(mapping.opportunities, mapping.submissionId, ix, byPath, evidence);
    DimensionsKeepIndex(EMPTY_INDEX, blueprint.dimensions, blueprint);
    forall o | o in mapping.opportunities ensures o.dimensionId in DimensionIds(blueprint.dimensions) {
      AcceptedOpportunity(o, mapping.submissionId, ix, byPath, evidence);
      var k :| 0 <= k < |blueprint.dimensions| && blueprint.dimensions[k] == ix.dimensions[o.dimensionId];
      assert DimensionIds(blueprint.dimensions)[k] == o.dimensionId;
    }
  }

  /** Coverage counts every mapped opportunity and every question exactly once. */
  lemma CoverageIsConserved(mapping: Mapping, blueprint: Blueprint, policy: PlanningPolicy, bundle: Bundle, services: Services,
                            selected: seq<nat>, questions: seq<Question>)
    requires RunOf(mapping, blueprint, policy, bundle, services, selected, questions)
    requires mapping.status == Ready && CheckEvidenceMap(mapping, blueprint, bundle).Pass?
    requires NoDup(DimensionIds(blueprint.dimensions))
    ensures var coverage := CoverageOf(blueprint.dimensions, mapping.opportunities, questions);
            Available(coverage) == |mapping.opportunities| && SelectedTotal(coverage) == blueprint.constraints.questionCount
  {
    hide RunOf, CheckEvidenceMap, ValidCandidates, CoverageOf, NoDup;
    var dims := DimensionIds(blueprint.dimensions);
    var os := mapping.opportunities;
    AcceptedDimensions(mapping, blueprint, bundle);
    RunQuestions(mapping, blueprint, policy, bundle, services, selected, questions);
    CoverageTotals(blueprint.dimensions, os, questions);
    forall k | k in OpportunityDimensions(os) ensures k in dims {
      var i :| 0 <= i < |os| && os[i].dimensionId == k;
      assert os[i] in os;
    }
    forall k | k in QuestionDimensions(questions) ensures k in dims {
      var i :| 0 <= i < |questions| && questions[i].dimensionId == k;
      assert WrittenFor(questions[i], PlanningProblem(mapping, blueprint, policy).Item(selected[i]), bundle);
    }
    GroupsPartition(dims, OpportunityDimensions(os));
    GroupsPartition(dims, QuestionDimensions(questions));
  }

  // ---- Coverage reports ----

  datatype Trace = Trace(dimensionId: string, variantId: string, evidenceIds: seq<string>, primary: bool, reused: bool)

  function TracesOf(traces: seq<Trace>, dimensionId: string): seq<Trace> {
    if traces == [] then []
    else TracesOf(traces[..|traces|-1], dimensionId)
         + if traces[|traces|-1].dimensionId == dimensionId then [traces[|traces|-1]] else []
  }

  function Primaries(traces: seq<Trace>): nat {
    if traces == [] then 0 else Primaries(traces[..|traces|-1]) + if traces[|traces|-1].primary then 1 else 0
  }

  function ReusedVariants(traces: seq<Trace>): nat {
    if traces == [] then 0 else ReusedVariants(traces[..|traces|-1]) + if traces[|traces|-1].reused then 1 else 0
  }

  predicate ItemMatches(item: CoverageItem, traces: seq<Trace>) {
    var own := TracesOf(traces, item.dimensionId);
    && item.variantCount == |set t | t in own :: t.variantId|
    && item.opportunityCount == |own|
    && item.selectedCount == Primaries(own)
    && item.reusedCount == ReusedVariants(own)
    && item.evidenceCount == |set t, e | t in own && e in t.evidenceIds :: e|
  }

  function SummaryIds(summary: seq<CoverageItem>): (ids: seq<string>)
    ensures |ids| == |summary| && forall i :: 0 <= i < |ids| ==> ids[i] == summary[i].dimensionId
  {
    seq(|summary|, i requires 0 <= i < |summary| => summary[i].dimensionId)
  }

  /** `CoverageReport`'s validator, on the summary and the traces. */
  predicate ReportModel(summary: seq<CoverageItem>, traces: seq<Trace>) {
    && NoDup(SummaryIds(summary))
    && (forall t :: t in traces ==> t.dimensionId in SummaryIds(summary))
    && forall item :: item in summary ==> ItemMatches(item, traces)
  }

  function TraceDimensions(traces: seq<Trace>): (ids: seq<string>)
    ensures |ids| == |traces| && forall i :: 0 <= i < |ids| ==> ids[i] == traces[i].dimensionId
  {
    seq(|traces|, i requires 0 <= i < |traces| => traces[i].dimensionId)
  }

  /** The dimensions of the primary traces. */
  function PrimaryDimensions(traces: seq<Trace>): (ids: seq<string>)
    ensures |ids| == Primaries(traces)
  {
    if traces == [] then []
    else PrimaryDimensions(traces[..|traces|-1])
         + if traces[|traces|-1].primary then [traces[|traces|-1].dimensionId] else []
  }

  lemma {:induction false} TracesCount(traces: seq<Trace>, dimensionId: string)
    ensures |TracesOf(traces, dimensionId)| == Count(TraceDimensions(traces), dimensionId)
    ensures Primaries(TracesOf(traces, dimensionId)) == Count(PrimaryDimensions(traces), dimensionId)
  {
    if traces != [] {
      var before, last := traces[..|traces|-1], traces[|traces|-1];
      TracesCount(before, dimensionId);
      assert TraceDimensions(traces)[..|before|] == TraceDimensions(before);
      var own := TracesOf(before, dimensionId);
      assert (own + [last])[..|own|] == own && own + [] == own;
      var ids := PrimaryDimensions(before);
      assert (ids + [last.dimensionId])[..|ids|] == ids && ids + [] == ids;
    }
  }

  lemma {:induction false} SummaryTotals(summary: seq<CoverageItem>, traces: seq<Trace>)
    requires forall item :: item in summary ==> ItemMatches(item, traces)
    ensures Available(summary) == Total(SummaryIds(summary), TraceDimensions(traces))
    ensures SelectedTotal(summary) == Total(SummaryIds(summary), PrimaryDimensions(traces))
  {
    if summary != [] {
      assert ItemMatches(summary[0], traces);
      SummaryTotals(summary[1..], traces);
      TracesCount(traces, summary[0].dimensionId);
      assert SummaryIds(summary)[1..] == SummaryIds(summary[1..]);
    }
  }

  lemma {:induction false} PrimaryDimensionsKnown(traces: seq<Trace>, groups: seq<string>)
    requires forall t :: t in traces ==> t.dimensionId in groups
    ensures forall k :: k in PrimaryDimensions(traces) ==> k in groups
  {
    if traces != [] {
      PrimaryDimensionsKnown(traces[..|traces|-1], groups);
      assert traces[|traces|-1] in traces;
    }
  }

  /** An accepted report's summary accounts for every trace once, and for every
      primary trace once. */
  lemma ReportIsConserved(summary: seq<CoverageItem>, traces: seq<Trace>)
    requires ReportModel(summary, traces)
    ensures Available(summary) == |traces| && SelectedTotal(summary) == Primaries(traces)
  {
    hide ItemMatches, NoDup;
    SummaryTotals(summary, traces);
    forall k | k in TraceDimensions(traces) ensures k in SummaryIds(summary) {
      var i :| 0 <= i < |traces| && traces[i].dimensionId == k;
      assert traces[i] in traces;
    }
    PrimaryDimensionsKnown(traces, SummaryIds(summary));
    GroupsPartition(SummaryIds(summary), TraceDimensions(traces));
    GroupsPartition(SummaryIds(summary), PrimaryDimensions(traces));
  }
}
