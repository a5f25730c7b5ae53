/** `build_assessment_plan`: candidates, search, disjoint reserve, or a complete
    failure. Functions specify it; the methods below them are the loops. */
module Planner {
  import opened Orders
  import opened Results
  import opened Contracts
  import opened Scoring
  import opened BeamSearch

  // ---- Candidates ----

  predicate IsCandidate(o: Opportunity, constraints: Constraints, policy: PlanningPolicy) {
    && o.quality >= policy.minimumQuality
    && o.evidenceFit >= policy.minimumFit
    && exists f :: f in o.responseFormats && f in constraints.responseFormats
  }

  function Filtered(opportunities: seq<Opportunity>, constraints: Constraints, policy: PlanningPolicy): seq<Scored> {
    if opportunities == [] then []
    else
      var rest := Filtered(opportunities[1..], constraints, policy);
      if IsCandidate(opportunities[0], constraints, policy)
      then [Scored(opportunities[0], BaseScore(opportunities[0], policy))] + rest
      else rest
  }

  predicate BaseLeq(a: Scored, b: Scored) {
    a.baseScore > b.baseScore
    || (a.baseScore == b.baseScore && StringLeq(a.opportunity.opportunityId, b.opportunity.opportunityId))
  }

  function ValidCandidates(mapping: Mapping, blueprint: Blueprint, policy: PlanningPolicy): seq<Scored> {
    SortBy(BaseLeq, Filtered(mapping.opportunities, blueprint.constraints, policy))
  }

  function PlanningProblem(mapping: Mapping, blueprint: Blueprint, policy: PlanningPolicy): Problem {
    Problem(ValidCandidates(mapping, blueprint, policy), blueprint.constraints.targetTotalMinutes, policy)
  }

  // ---- Complete failures ----

  function CompleteFailure(status: Status, submissionId: string, blueprint: Blueprint, evidenceIds: seq<string>, details: Details): Plan {
    var count := blueprint.constraints.questionCount;
    Plan(FailureSeed(submissionId, blueprint.blueprintId, blueprint.version, status, count),
         submissionId, blueprint.blueprintId, blueprint.version, status, count, [], [], 0,
         [Diagnostic(OfStatus(status), Error, Take(evidenceIds, 100), false, details)])
  }

  function DiagnosticEvidence(diagnostics: seq<Diagnostic>): seq<string> {
    if diagnostics == [] then [] else diagnostics[0].evidenceIds + DiagnosticEvidence(diagnostics[1..])
  }

  function OpportunityEvidence(opportunities: seq<Opportunity>): seq<string> {
    if opportunities == [] then [] else opportunities[0].evidenceIds + OpportunityEvidence(opportunities[1..])
  }

  predicate Plannable(status: Status) {
    status in {InsufficientRelevantEvidence, InsufficientDistinctOpportunities, EvidenceMappingUncertain}
  }

  function FailureFromMapping(mapping: Mapping, blueprint: Blueprint): Result<Plan, ErrorCode> {
    if !Plannable(mapping.status) then Err(MappingNotPlannable)
    else Ok(CompleteFailure(mapping.status, mapping.submissionId, blueprint,
                            SortedSet(DiagnosticEvidence(mapping.diagnostics)), MappingStatus(mapping.status)))
  }

  // ---- The reserve ----

  function Outside(p: Problem, selected: seq<nat>, from: nat): seq<Opportunity>
    decreases |p.scored| - from
  {
    if from >= |p.scored| then []
    else if from in selected then Outside(p, selected, from + 1)
    else [p.Item(from)] + Outside(p, selected, from + 1)
  }

  predicate MarginalLeq(primary: seq<Opportunity>, policy: PlanningPolicy, a: Opportunity, b: Opportunity) {
    var x, y := MarginalScore(a, primary, policy), MarginalScore(b, primary, policy);
    x > y || (x == y && StringLeq(a.opportunityId, b.opportunityId))
  }

  function ByMarginal(primary: seq<Opportunity>, policy: PlanningPolicy): (Opportunity, Opportunity) -> bool {
    (a, b) => MarginalLeq(primary, policy, a, b)
  }

  /** Reserve candidates, best replacement first. */
  function RankedOutside(p: Problem, selected: seq<nat>): seq<Opportunity>
    requires InRange(p, selected)
  {
    SortBy(ByMarginal(Items(p, selected), p.policy), Outside(p, selected, 0))
  }

  function FirstOfClass(ranked: seq<Opportunity>, flag: bool, reserve: seq<Opportunity>): Option<Opportunity> {
    if ranked == [] then None
    else if ranked[0].justificationRequired == flag && ranked[0] !in reserve then Some(ranked[0])
    else FirstOfClass(ranked[1..], flag, reserve)
  }

  function WithClass(ranked: seq<Opportunity>, present: bool, flag: bool, reserve: seq<Opportunity>): seq<Opportunity> {
    var found := FirstOfClass(ranked, flag, reserve);
    if present && found.Some? then reserve + [found.value] else reserve
  }

  /** One replacement for every justification class of the primaries, True first. */
  function Leaders(ranked: seq<Opportunity>, flags: set<bool>): seq<Opportunity> {
    WithClass(ranked, false in flags, false, WithClass(ranked, true in flags, true, []))
  }

  function Fill(reserve: seq<Opportunity>, ranked: seq<Opportunity>): seq<Opportunity>
    decreases ranked
  {
    if ranked == [] then reserve
    else Fill(if ranked[0] in reserve then reserve else reserve + [ranked[0]], ranked[1..])
  }

  function Reserve(p: Problem, selected: seq<nat>): seq<Opportunity>
    requires InRange(p, selected)
  {
    if p.policy.maxReserve == 0 then []
    else
      var ranked := RankedOutside(p, selected);
      Take(Fill(Leaders(ranked, Flags(p, selected)), ranked), p.policy.maxReserve)
  }

  // ---- The plan ----

  function MinutesOf(items: seq<Opportunity>): nat {
    if items == [] then 0 else MinutesOf(items[..|items|-1]) + items[|items|-1].targetMinutes
  }

  function ReadyPlan(mapping: Mapping, blueprint: Blueprint, p: Problem, selected: seq<nat>): Plan
    requires InRange(p, selected)
  {
    var primary := Items(p, selected);
    var selectedIds, reserveIds := IdsOf(primary), IdsOf(Reserve(p, selected));
    Plan(ReadySeed(mapping.submissionId, blueprint.blueprintId, blueprint.version, selectedIds, reserveIds),
         mapping.submissionId, blueprint.blueprintId, blueprint.version, Ready,
         blueprint.constraints.questionCount, selectedIds, reserveIds, MinutesOf(primary), [])
  }

  /** Planning a READY mapping. */
  function PlanCandidates(mapping: Mapping, blueprint: Blueprint, policy: PlanningPolicy): Plan {
    var count := blueprint.constraints.questionCount;
    var evidence := SortedSet(OpportunityEvidence(mapping.opportunities));
    var p := PlanningProblem(mapping, blueprint, policy);
    if p.scored == [] then
      CompleteFailure(InsufficientRelevantEvidence, mapping.submissionId, blueprint, evidence, RelevantCounts(0, count))
    else if |p.scored| < count then
      CompleteFailure(InsufficientDistinctOpportunities, mapping.submissionId, blueprint, evidence, DistinctCounts(|p.scored|, count))
    else
      var state := Select(p, count, blueprint.constraints.mode, BEAM_WIDTH);
      if state.None? then
        CompleteFailure(AssessmentPlanInfeasible, mapping.submissionId, blueprint, evidence,
                        InfeasibleCounts(|p.scored|, count, blueprint.constraints.targetTotalMinutes))
      else
        SelectInRange(p, count, blueprint.constraints.mode, BEAM_WIDTH);
        ReadyPlan(mapping, blueprint, p, state.value.selected)
  }

  /** The specification of `build_assessment_plan`. */
  function BuildPlan(mapping: Mapping, blueprint: Blueprint, policy: PlanningPolicy): Result<Plan, ErrorCode> {
    if mapping.submissionId == "" then Err(MappingNotPlannable)
    else if mapping.status != Ready then FailureFromMapping(mapping, blueprint)
    else Ok(PlanCandidates(mapping, blueprint, policy))
  }

  lemma {:induction false} FirstMeetingInRange(p: Problem, mode: JustificationMode, states: seq<State>)
    requires AllInRange(p, states)
    ensures var r := FirstMeeting(p, mode, states); r.Some? ==> r.value in states
  {
    if states != [] && !MeetsMode(p, mode, states[0].selected) {
      FirstMeetingInRange(p, mode, states[1..]);
    }
  }

  lemma SelectInRange(p: Problem, count: nat, mode: JustificationMode, width: nat)
    ensures var r := Select(p, count, mode, width); r.Some? ==> InRange(p, r.value.selected)
  {
    FirstMeetingInRange(p, mode, Beam(p, width, count));
  }

  // ---- The loops ----

  /** Puts the class leaders and then every other candidate into the reserve. */
  method FillReserve(ranked: seq<Opportunity>, flags: set<bool>, maxReserve: nat) returns (reserve: seq<Opportunity>)
    ensures reserve == if maxReserve == 0 then [] else Take(Fill(Leaders(ranked, flags), ranked), maxReserve)
  {
    reserve := [];
    if maxReserve != 0 {
      var order := [true, false];
      ghost var afterTrue := WithClass(ranked, true in flags, true, []);
      for c := 0 to 2
        invariant c == 0 ==> reserve == []
        invariant c == 1 ==> reserve == afterTrue
        invariant c == 2 ==> reserve == Leaders(ranked, flags)
      {
        if order[c] in flags {
          var found := FindOfClass(ranked, order[c], reserve);
          if found.Some? {
            reserve := reserve + [found.value];
          }
        }
      }
      for i := 0 to |ranked|
        invariant Fill(reserve, ranked[i..]) == Fill(Leaders(ranked, flags), ranked)
      {
        assert ranked[i..][0] == ranked[i] && ranked[i..][1..] == ranked[i+1..];
        if ranked[i] !in reserve {
          reserve := reserve + [ranked[i]];
        }
      }
      reserve := Take(reserve, maxReserve);
    }
  }

  method FindOfClass(ranked: seq<Opportunity>, flag: bool, reserve: seq<Opportunity>) returns (r: Option<Opportunity>)
    ensures r == FirstOfClass(ranked, flag, reserve)
  {
    for i := 0 to |ranked|
      invariant FirstOfClass(ranked[i..], flag, reserve) == FirstOfClass(ranked, flag, reserve)
    {
      assert ranked[i..][0] == ranked[i] && ranked[i..][1..] == ranked[i+1..];
      if ranked[i].justificationRequired == flag && ranked[i] !in reserve {
        return Some(ranked[i]);
      }
    }
    return None;
  }

  method CollectOutside(p: Problem, selected: seq<nat>) returns (r: seq<Opportunity>)
    ensures r == Outside(p, selected, 0)
  {
    r := [];
    for i := 0 to |p.scored|
      invariant r + Outside(p, selected, i) == Outside(p, selected, 0)
    {
      if i !in selected {
        assert Outside(p, selected, i) == [p.Item(i)] + Outside(p, selected, i + 1);
        r := r + [p.Item(i)];
      }
    }
  }

  method BuildAssessmentPlan(mapping: Mapping, blueprint: Blueprint, policy: PlanningPolicy) returns (r: Result<Plan, ErrorCode>)
    ensures r == BuildPlan(mapping, blueprint, policy)
  {
    var count := blueprint.constraints.questionCount;
    if mapping.submissionId == "" {
      return Err(MappingNotPlannable);
    }
    if mapping.status != Ready {
      return FailureFromMapping(mapping, blueprint);
    }
    var evidence := SortedSet(OpportunityEvidence(mapping.opportunities));
    var p := PlanningProblem(mapping, blueprint, policy);
    if p.scored == [] {
      return Ok(CompleteFailure(InsufficientRelevantEvidence, mapping.submissionId, blueprint, evidence, RelevantCounts(0, count)));
    }
    if |p.scored| < count {
      return Ok(CompleteFailure(InsufficientDistinctOpportunities, mapping.submissionId, blueprint, evidence,
                                DistinctCounts(|p.scored|, count)));
    }
    var state, _ := SelectExact(p, count, blueprint.constraints.mode, BEAM_WIDTH);
    if state.None? {
      return Ok(CompleteFailure(AssessmentPlanInfeasible, mapping.submissionId, blueprint, evidence,
                                InfeasibleCounts(|p.scored|, count, blueprint.constraints.targetTotalMinutes)));
    }
    SelectInRange(p, count, blueprint.constraints.mode, BEAM_WIDTH);
    var selected := state.value.selected;
    var primary := Items(p, selected);
    var outside := CollectOutside(p, selected);
    var ranked := SortBy(ByMarginal(primary, policy), outside);
    var reserve := FillReserve(ranked, Flags(p, selected), policy.maxReserve);
    var selectedIds, reserveIds := IdsOf(primary), IdsOf(reserve);
    return Ok(Plan(ReadySeed(mapping.submissionId, blueprint.blueprintId, blueprint.version, selectedIds, reserveIds),
                   mapping.submissionId, blueprint.blueprintId, blueprint.version, Ready, count,
                   selectedIds, reserveIds, MinutesOf(primary), []));
  }
}
