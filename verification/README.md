# Verified model of the comprehension-verification pipeline

The repository turns a student's submission into a short personalised
assessment. A model maps evidence to question opportunities; a planner selects
exactly N of them; questions are written, reviewed and assembled; a guide is
built for the evaluator. Around this stand contextual validators, a contract
gate that reads schemas and Markdown fixtures, canonical serialization and a
stage cache. This project models those parts in Dafny and proves what they
promise together.

| module | models |
|---|---|
| `Results`, `Orders`, `Text`, `Json` | results and checks, Python's ordering, sorting and string operations, JSON trees |
| `Contracts` | the contract objects and the model validators the proofs rely on |
| `Scoring`, `BeamSearch`, `SearchExactness`, `Survival`, `Truncation` | overlap and scores, the bounded search, when it is exact, what it keeps otherwise, and a concrete miss |
| `Planner`, `PlannerProperties` | the plan with its reserve and failures, and what holds of every plan |
| `Validation`, `Acceptance`, `QuestionValidation`, `Verdicts`, `Refusals` | the validators of evidence maps, plans, candidates, reviews and guides, what acceptance means in terms of the blueprint, and what a refusal tells |
| `Deduplication`, `Pipeline`, `QuestionTurns`, `Provenance`, `Coverage`, `Run`, `JustificationModes`, `RepeatedCandidates` | the stages of a synthetic run, what is conserved from the evidence map to the guide, and what stops a run |
| `JsonPointer`, `PointerParts`, `PointerSpelling` | reference resolution and crawling, how parts are read, how it differs from RFC 6901 |
| `FixtureScanner`, `FixtureProperties`, `FixtureOutcomes`, `FixtureSyntax`, `FixturePrinting` | the Markdown fixture scanner, its outcomes and its line patterns told by the lines, and a printer |
| `Canonical`, `StageCache` | canonical text and the memo table keyed by it |

Code that updates variables in loops is a method proved against a specification
function; the lemmas are about those functions. `LocalArtifactStore` is a class
with its cache directory as a field. Scores and overlaps are exact reals.

Five things are worth knowing before reading the table.

* `ASSESSMENT_PLAN_INFEASIBLE` is not a proof of infeasibility.
  `Truncation.InfeasibleAnswerCanBeWrong` gives an input;
  `Survival.ReadyIffSomeStay` says exactly when a plan is found, for all inputs
  and in terms of the feasible selections alone; `SearchExactness.TenNeverOverflow`
  gives a bound that is easy to check.
* The planner does not enforce mode ALL, nor NOT_REQUIRED, although its plan is
  assembled only when the flags agree with the mode.
  `JustificationModes.ModesAreNotEnforcedByPlanning` gives the inputs and
  `Provenance.AssemblyOutcome` the exact condition.
* No validator compares candidate identifiers, so two accepted candidates with
  one identifier get one question identifier and the assembly fails
  (`RepeatedCandidates.RepeatedCandidateStopsARun`, `Run.WhatStopsARun`).
* `_find_fence_end` treats an unclosed fence as an error, while the CommonMark
  rule the scanner otherwise follows closes it at the end of the document. The
  model follows the code; `FixtureProperties.UnclosedFenceIsAnError` says exactly
  when this happens.
* The pointer resolver reads what stands behind `#` as a JSON Pointer without
  undoing the percent-encoding of URI fragments, so a section 6 fragment of
  RFC 6901 is sure to lead to its node exactly when no key needs that encoding
  (`PointerSpelling.FragmentWorksIffPlain`). It also resolves references that
  the standard does not allow: signs, surrounding space, underscores and leading
  zeros in indices, and a `~` before other characters than `0` and `1`.
  `PointerSpelling.ResolvedIsSpelledIffStrict` is the exact condition.

## Model

| member | source | states |
|---|---|---|
| Scoring.OverlapRange | src/comprehension_verification/planning.py:29-33 | overlap lies in 0..1 and is 1 exactly for equal nonempty evidence sets |
| Scoring.OverlapIsJaccard | src/comprehension_verification/planning.py:29-33 | overlap times the size of the union, computed by inclusion-exclusion, is the number of shared identifiers, and nothing overlaps where there is no evidence |
| Scoring.OverlapSymmetric | src/comprehension_verification/planning.py:29-33 | overlap does not depend on the order of the two opportunities |
| Scoring.DominatingAddsNoLess | src/comprehension_verification/planning.py:36-61 | with weights that are not negative, an opportunity that is at least as good in every measure, on the same path and evidence, adds at least as much to any selection, and strictly more when a weighted measure is better |
| Scoring.MarginalIsBaseLessPenalties | src/comprehension_verification/planning.py:47-61 | a marginal score is the base score less the sum of symmetric pairwise penalties |
| Scoring.PathScoreClosedForm | src/comprehension_verification/planning.py:180-187 | the score accumulated along an insertion order is the sum of base scores less the penalties over unordered pairs |
| Scoring.InsertedLast | src/comprehension_verification/planning.py:180-187 | any member of a selection can be treated as the one added last without changing the score |
| Scoring.PathScoreForgetsOrder | src/comprehension_verification/planning.py:180-187 | every insertion order of the same opportunities accumulates the same score |
| Scoring.MarginalRanksExtensions | src/comprehension_verification/planning.py:298-300 | ranking replacements by marginal score ranks the completed selections by total score |
| Orders.SortBySorted | src/comprehension_verification/planning.py:152 | a stable sort by a total preorder is ordered |
| Orders.SortForgetsOrder | src/comprehension_verification/planning.py:152 | sorting permutations of one another gives the same list when no two members tie |
| Orders.TupleOrder | src/comprehension_verification/planning.py:190-196 | Python tuple comparison of identifier lists is a total order in which only equal tuples tie |
| Orders.StringLeqMeans | src/comprehension_verification/planning.py:152 | one string sorts before or beside another iff they are equal, or it ends first or has the smaller code point at the first difference |
| Orders.TupleLeqMeans | src/comprehension_verification/planning.py:190-196 | one tuple sorts before or beside another iff they are equal, or at the first member that differs its string stands first, or it ends first |
| BeamSearch.AppendChildren | src/comprehension_verification/planning.py:168-187 | the inner loop appends exactly the admissible extensions of one state, in index order, trying at most n candidates |
| BeamSearch.ExpandBeam | src/comprehension_verification/planning.py:167-187 | the loop over states yields the expansions of the whole beam with at most n trials per state |
| BeamSearch.SelectExact | src/comprehension_verification/planning.py:155-225 | the search loops compute the specified selection, whose place among all selections `Survival.ReturnedComesFirst` states, within n + (count - 1) * width * n candidate trials |
| BeamSearch.ChooseFrom | src/comprehension_verification/planning.py:201-225 | the closing loop returns the first beam state that meets the justification mode |
| BeamSearch.BeamSound | src/comprehension_verification/planning.py:164-197 | for any width, every beam state is a feasible selection (increasing in-range indices, minutes within budget, pairwise overlap under the cap) with its exact score and minutes |
| BeamSearch.BeamDistinguished | src/comprehension_verification/planning.py:164-197 | no two states of one beam hold the same selection |
| BeamSearch.AdmitsIsFeasible | src/comprehension_verification/planning.py:168-179 | the tests made before an extension hold exactly when the longer selection is feasible |
| BeamSearch.RankOrder | src/comprehension_verification/planning.py:190-196 | (-score, minutes, identifier tuple) is a total preorder, and a tie means equal score, minutes and tuple; its direction is `RankLeqIsNotBetter` |
| BeamSearch.RankLeqIsNotBetter | src/comprehension_verification/planning.py:190-196 | one state sorts before or beside another iff the other selection is not better: no higher score, no fewer minutes at equal score, and no identifiers that stand first at equal minutes |
| BeamSearch.TupleOrderSpelledOut | src/comprehension_verification/planning.py:190-196 | of two identifier lists of one length the first stands before iff at the first place where they differ its identifier is a proper prefix or has the smaller code point first |
| SearchExactness.BeamExhaustive | src/comprehension_verification/planning.py:164-197 | while no depth has more feasible selections than the width, the beam holds all feasible selections of its size, once each |
| SearchExactness.SelectIsSound | src/comprehension_verification/planning.py:155-225 | for any width a returned selection is feasible, has the requested size and meets the mode |
| SearchExactness.AcceptableMeans | src/comprehension_verification/planning.py:168-225 | a selection is acceptable iff it has the requested number of different candidates, their minutes fit, every pair stays under the overlap cap, and under SELECTED one asks for justification and, where reserves are permitted, every class inside has a candidate outside |
| SearchExactness.ReturnedIsBest | src/comprehension_verification/planning.py:155-225 | if no beam before the last can overflow, no acceptable selection is better than the one returned |
| SearchExactness.CompleteUnlessSelected | src/comprehension_verification/planning.py:155-202 | outside SELECTED, without overflow before the last depth, nothing is returned iff no acceptable selection exists |
| SearchExactness.CompleteUnderSelected | src/comprehension_verification/planning.py:204-225 | under SELECTED, without overflow at any depth, nothing is returned iff no acceptable selection exists |
| SearchExactness.BestIsUnique | src/comprehension_verification/planning.py:190-196 | the best acceptable selection is unique when opportunity identifiers are |
| SearchExactness.MissedMeansOverflow | src/comprehension_verification/planning.py:197 | an acceptable selection that is not found was crowded out at a depth with more feasible selections than the width |
| SearchExactness.AtMostChoose | src/comprehension_verification/planning.py:155-163 | n candidates have at most C(n, k) feasible selections of size k, so no beam that wide overflows |
| SearchExactness.TenNeverOverflow | src/comprehension_verification/planning.py:162 | with at most ten candidates the shipped width of 512 never overflows, for any count, budget, cap and mode |
| SearchExactness.ExactWithoutOverflow | src/comprehension_verification/planning.py:155-225 | a search that cannot overflow is complete and optimal |
| Survival.KeptIffFewAhead | src/comprehension_verification/planning.py:190-197 | sorting and cutting at the width keeps a member iff fewer than that many others rank ahead of it |
| Survival.BeamHoldsStaying | src/comprehension_verification/planning.py:164-197 | with or without overflow the beams hold exactly the feasible selections that stay: those all of whose prefixes have fewer than the width of rivals, a condition on candidates, constraints and ranking that mentions no beam |
| Survival.EveryoneStaysWithoutOverflow | src/comprehension_verification/planning.py:197 | where no depth has more feasible selections than the width, every feasible selection stays |
| Survival.SearchFindsBestStaying | src/comprehension_verification/planning.py:155-225 | for every input with unique identifiers the search returns something iff an acceptable selection stays, and then one than which no staying acceptable selection is better |
| Survival.ReturnedComesFirst | src/comprehension_verification/planning.py:190-225 | against every acceptable selection that stays, the one returned scores at least as much; at equal score it takes no more minutes; at equal minutes, at the first place where the identifiers differ, its own is a proper prefix or has the smaller code point at the first differing character |
| Survival.BestIsFoundIffItStays | src/comprehension_verification/planning.py:155-225 | the best of all acceptable selections is returned iff it stays |
| Survival.SomeBest | src/comprehension_verification/planning.py:190-225 | there is a best acceptable selection as soon as there is an acceptable one |
| Survival.ReadyIffSomeStay | src/comprehension_verification/planning.py:268-289 | the planner answers READY iff an acceptable selection stays at width 512: the exact condition under which its answer is right |
| Survival.PlanIsBestIffItStays | src/comprehension_verification/planning.py:268-350 | a plan is READY with the best acceptable selection as its primaries iff that selection stays |
| Truncation.CrowdedOut | src/comprehension_verification/planning.py:197 | for any width, enough high-scoring candidates that exhaust the budget crowd a feasible pair out of the search |
| Truncation.InfeasibleAnswerCanBeWrong | src/comprehension_verification/planning.py:277-289 | a concrete map of 514 opportunities on fifty units, within its field bounds, accepted by the validator and left alone by deduplication, is answered ASSESSMENT_PLAN_INFEASIBLE at the shipped width although an acceptable plan exists |
| Planner.BuildAssessmentPlan | src/comprehension_verification/planning.py:228-350 | the imperative planner returns exactly the specified plan, complete failure or error |
| Planner.FillReserve | src/comprehension_verification/planning.py:301-327 | the reserve loops place the class leaders first (True before False), then every other candidate in rank order, cut to the maximum |
| Planner.FindOfClass | src/comprehension_verification/planning.py:310-319 | the generator search finds the first candidate of a class that is not yet in the reserve, or nothing |
| Planner.CollectOutside | src/comprehension_verification/planning.py:293-297 | exactly the candidates outside the selection are collected, in candidate order |
| PlannerProperties.CandidatesAreEligible | src/comprehension_verification/planning.py:138-152 | an opportunity is behind a candidate iff it is one of the mapping, reaches the quality floor and the fit floor and shares a response format with the activity; each is one candidate, with its weighted base score, and the search has the minutes of the activity |
| PlannerProperties.CandidatesAreRanked | src/comprehension_verification/planning.py:138-152 | candidates stand by falling base score and, at equal score, by identifier in code point order |
| PlannerProperties.PlanForgetsOrder | src/comprehension_verification/planning.py:228-350 | permuting the opportunities of a valid mapping never changes the plan: status, primaries, reserve, totals, identifier seed and diagnostics |
| PlannerProperties.SplitCandidates | src/comprehension_verification/planning.py:291-297 | primaries and reserve candidates partition the candidates |
| PlannerProperties.ReserveIsDisjoint | src/comprehension_verification/planning.py:301-329 | the reserve has min(max_reserve, candidates - N) entries, and no identifier repeats across primaries and reserve |
| PlannerProperties.ReserveLeadsWithBest | src/comprehension_verification/planning.py:298-327 | the reserve begins with the best replacement of every primary justification class that has one, the class that asks for justification first: its completed selection scores highest in the class, ties by identifier |
| PlannerProperties.ReserveRestIsRanked | src/comprehension_verification/planning.py:298-327 | behind the leaders each reserve entry replaces better than everything later or left out: a higher completed score or, at equal score, the identifier that stands first |
| PlannerProperties.ReadyPlanMeaning | src/comprehension_verification/planning.py:328-350 | a READY plan presents a feasible selection of exactly N candidates that meets the mode, with its minutes, its reserve and no repeated identifier |
| PlannerProperties.ReadyPlanKeepsJustification | src/comprehension_verification/planning.py:204-225 | under SELECTED a READY plan asks for justification, and a primary class is represented in the reserve iff the reserve has room: one entry for True, two for False |
| PlannerProperties.PlannerIsTotal | src/comprehension_verification/planning.py:228-350 | on every valid mapping of an admitted status a plan is returned that satisfies its model, bounds included, and passes validate_assessment_plan |
| PlannerProperties.PresentedIdsKnown | src/comprehension_verification/validation.py:343-346 | every primary and reserve identifier names an opportunity of the mapping |
| PlannerProperties.OutcomesPartition | src/comprehension_verification/planning.py:245-289 | the four outcomes of a READY mapping are told apart exactly: no opportunity reaches both floors in a common format, too few candidates, no selection found, or a selection found |
| PlannerProperties.PlannedReachTheFloors | src/comprehension_verification/planning.py:138-152 | every primary and every reserve identifier of a READY plan names an opportunity of the mapping at or above both floors in an admitted format |
| PlannerProperties.FailedPlanTells | src/comprehension_verification/planning.py:64-106 | a plan without questions names its submission, blueprint and version, has one final ERROR diagnostic of its status, and counts the eligible opportunities against those needed |
| PlannerProperties.ReadyPlanTells | src/comprehension_verification/planning.py:328-350 | a READY plan names its submission, blueprint and version, presents N primaries within the minutes, as many reserves as allowed, no diagnostics, and is identified by exactly what it presents |
| PlannerProperties.MappingFailureIsPassedOn | src/comprehension_verification/planning.py:109-135 | planning raises iff the mapping has no submission or a status that is neither READY nor one of the three planning failures; a mapping that reports such a failure gives that plan, with the evidence its diagnostics name, ascending and unrepeated, all of it below the limit of 100 |
| PlannerProperties.FailureNamesEvidence | src/comprehension_verification/planning.py:242-244 | a failure names evidence of the mapping in strictly ascending order, at most 100 identifiers, and all of it below that limit |
| PlannerProperties.PlanIsExact | src/comprehension_verification/planning.py:228-350 | when no beam that matters can overflow (the last one matters only under SELECTED) the plan is READY iff an acceptable selection exists, and its primaries are the best one |
| PlannerProperties.PlanIsExactUpToTen | src/comprehension_verification/planning.py:228-350 | with at most ten candidates the planner answers READY iff an acceptable selection exists |
| Validation.BuildIndex | src/comprehension_verification/validation.py:99-143 | the nested loops build the specified blueprint index, the later of two equal identifiers winning |
| Acceptance.IndexIsBlueprint | src/comprehension_verification/validation.py:99-143 | with unique identifiers the index holds every dimension, variant and template of the blueprint under its own identifier and its own parent, and nothing else |
| Validation.ValidateClaim | src/comprehension_verification/validation.py:154-189 | the claim loops with early raises give the specified verdict and error |
| Validation.ValidateEvidenceMap | src/comprehension_verification/validation.py:114-327 | the validator loops give the specified verdict and the error that is raised first |
| Validation.ValidateMatch | src/comprehension_verification/validation.py:190-228 | one variant match is checked with the specified verdict and error |
| Validation.ValidateOpportunity | src/comprehension_verification/validation.py:233-327 | one opportunity is checked with the specified verdict and error |
| Validation.ValidateAssessmentPlan | src/comprehension_verification/validation.py:330-357 | the plan validator gives the specified verdict and error |
| Refusals.RefusalNamesADefect | src/comprehension_verification/validation.py:114-327 | whatever error a map is refused with, the map, the blueprint or the bundle has the defect that the error names: an unknown identifier, a foreign unit, a repeated identifier, a path, operation, requirement or confidence that does not hold |
| Verdicts.FailedMapAccepted | src/comprehension_verification/validation.py:125-131 | a map that reports a failure is accepted iff it is of the bundle, the bundle is in order, it exposes nothing, and its diagnostics are final and one names its status |
| Verdicts.PlanAccepted | src/comprehension_verification/validation.py:330-357 | a plan is accepted iff it is for the submission of the map and presents exactly N primaries, all planned identifiers being different ones of the map, or presents nothing and has final diagnostics naming its status |
| Verdicts.GenerationAccepted | src/comprehension_verification/validation.py:467-485 | a generation result is accepted iff it is READY with a candidate that keeps its plan, cites known evidence of it, shows derivable anchors, uses allowed sources and is clean, or exposes none and has final diagnostics |
| Verdicts.ReviewAccepted | src/comprehension_verification/validation.py:489-549 | a review is accepted iff it reviews this candidate of this request within its evidence, sources, difficulty and time, and accepts only at every threshold and without critical failures; or abstains with final diagnostics |
| Verdicts.GuideAccepted | src/comprehension_verification/validation.py:552-593 | a guide is accepted iff it is the guide of this assessment and this submission, and either its items are those of exactly the questions, each with levels 0 to 3 over its own elements and within its question, or it has no items and final diagnostics |
| QuestionValidation.ValidateQuestionCandidate | src/comprehension_verification/validation.py:380-464 | the candidate validator gives the specified verdict and the error raised first |
| QuestionValidation.ValidateReviewResult | src/comprehension_verification/validation.py:489-549 | the review validator gives the specified verdict and the error raised first |
| QuestionValidation.ValidateEvaluationGuide | src/comprehension_verification/validation.py:552-593 | the guide validator loops give the specified verdict and the error raised first |
| Validation.AcceptedClaim | src/comprehension_verification/validation.py:154-189 | a claim passes iff it cites known evidence, its alignments stay inside their dimension, and each operation comes from an aligned variant |
| Acceptance.AcceptedIffItFitsTheBlueprint | src/comprehension_verification/validation.py:114-327 | a READY map is accepted iff the bundle is in order, claim identifiers and match paths are distinct, and every claim, match and opportunity fits the dimensions, variants, templates and units themselves: no index, no path table, no order of checks |
| Acceptance.VerdictForgetsOrder | src/comprehension_verification/validation.py:114-327 | permuting the claims, matches and opportunities of a map never changes whether it is accepted |
| Acceptance.MeetsMeansFits | src/comprehension_verification/validation.py:309-327 | the requirement check on looked-up units holds iff every identifier names a fitting unit, enough are distinct and two artifacts occur where asked |
| Validation.MapCitesOwnEvidence | src/comprehension_verification/validation.py:77-96 | whatever an accepted map cites anywhere is a unit of the bundle, of its tenant and submission, in the submission role |
| QuestionValidation.AcceptedCandidate | src/comprehension_verification/validation.py:380-464 | a candidate passes iff the bundle is in order, it keeps its plan, its evidence, guide and anchors are grounded, its text is clean and its sources are allowed |
| QuestionValidation.FragmentsDerivable | src/comprehension_verification/validation.py:438-456 | the anchor check passes iff every fragment names known evidence at its own locator, shows text, quotes literally where it must and slices only structured evidence |
| QuestionValidation.GuideItemsWithin | src/comprehension_verification/validation.py:566-583 | guide items pass iff each has levels 0..3 built from its own elements and stays within the evidence and sources of its question |
| Deduplication.DeduplicatePlanningOpportunities | src/comprehension_verification/cli.py:197-222 | the loop over a set of seen signatures keeps what the specification keeps and leaves failed mappings alone |
| Deduplication.KeepsExactlyFirsts | src/comprehension_verification/cli.py:209-216 | exactly the first opportunity of every signature is kept, and no signature is lost |
| Deduplication.KeepsOrder | src/comprehension_verification/cli.py:209-216 | the kept opportunities are those at the increasing positions that repeat nothing before them, so their order is the original one |
| Deduplication.FirstsDiffer | src/comprehension_verification/cli.py:209-216 | no two kept opportunities share a signature |
| Deduplication.DeduplicationIsIdempotent | src/comprehension_verification/cli.py:197-222 | deduplicating twice changes nothing more |
| Deduplication.SignatureIsSet | src/comprehension_verification/cli.py:212 | two signatures are equal iff the same identifiers are cited equally often; without repeated identifiers, iff the evidence sets are equal |
| Deduplication.DeduplicationKeepsValidity | src/comprehension_verification/cli.py:548-550 | a mapping that satisfies its model and is accepted still does and is after deduplication, so the second validation never raises |
| Deduplication.DeduplicatedOverlapsBelowOne | src/comprehension_verification/cli.py:197-222 | after deduplicating an accepted mapping every remaining pair overlaps strictly below 1 |
| Pipeline.BuildQuestions | src/comprehension_verification/cli.py:582-649 | the question loop returns the questions in plan order or stops with the first refusal |
| Pipeline.BuildQuestion | src/comprehension_verification/cli.py:583-649 | one turn generates, validates, reviews, validates and selects in this order, with the error of the first refusal |
| QuestionTurns.TurnOutcome | src/comprehension_verification/cli.py:583-649 | a turn delivers a question iff the generated candidate fits its opportunity and the review accepts it; a declared abstention ends it as a failed generation or a failed review |
| QuestionTurns.QuestionIsItsCandidate | src/comprehension_verification/cli.py:225-259 | a question is its candidate field by field, under an identifier made of submission and candidate, with the mean of the three measures of the opportunity as its score, at most 1 |
| Pipeline.QuestionsAreWrittenFor | src/comprehension_verification/cli.py:583-649 | question i keeps the path, operation, difficulty, minutes and flag of planned opportunity i, narrows its evidence, and shows only derivable anchors |
| Pipeline.QuestionsTurnByTurn | src/comprehension_verification/cli.py:583-649 | the loop succeeds iff every turn does, turn by turn, and otherwise stops with the error of the first turn that refuses |
| Provenance.EveryQuestionWasReviewed | src/comprehension_verification/cli.py:634-649 | every question of every run passed a review of its own candidate, for its planned opportunity, at or above all thresholds, without critical failures and in agreement on difficulty and time |
| Provenance.ReadyPlanRuns | src/comprehension_verification/cli.py:578-584 | for a READY plan every planned identifier is found, and any questions that result come from the selection behind the plan |
| Provenance.RunQuestions | src/comprehension_verification/cli.py:582-649 | there is exactly one question for each of the N selected opportunities, written for it |
| Provenance.MinutesAreConserved | src/comprehension_verification/cli.py:583-649 | the questions number N and their minutes sum to the total of the plan, within the time target |
| Provenance.FlagsCarryOver | src/comprehension_verification/cli.py:248 | the justification flags of the questions are those of the selection |
| Provenance.AssemblyOutcome | specification/models_v1.1(1).py:1398-1441 | a run is assembled iff question identifiers differ, no source is cited and the flags of the selection suit the mode; the refusal "not represented in the plan" is unreachable, closed runs cite nothing, and under SELECTED the flags always suit |
| Provenance.UniformTemplatesSuit | src/comprehension_verification/validation.py:283-294 | where the templates of an admitted response format agree on the justification flag, which can be read off the blueprint, no plan of an accepted map fails assembly under the mode that asks for that flag |
| Provenance.QuestionIdsFollowCandidates | src/comprehension_verification/cli.py:229-233 | question identifiers repeat if two candidates carry one identifier, and otherwise only by a collision of the hash |
| Provenance.AssembleSpec | src/comprehension_verification/cli.py:304-343 | what the assembly of N questions depends on, and which of its two errors is raised |
| Provenance.OpportunityEvidenceGrounded | src/comprehension_verification/validation.py:233-327 | each evidence identifier of an accepted opportunity is in its variant match and in a unit of the own tenant and submission, in an allowed modality above the confidence floor |
| Provenance.GuideIsGrounded | src/comprehension_verification/validation.py:552-583 | each evidence identifier of an accepted guide is in its question, in the planned opportunity behind it, and grounded as above; what acceptance demands is `Verdicts.GuideAccepted` |
| Provenance.GuideCoversEachQuestionOnce | src/comprehension_verification/validation.py:562-565 | items of an accepted READY guide and questions of the assessment correspond one to one |
| Provenance.AnchorsAreDerivable | src/comprehension_verification/validation.py:438-451 | text a question shows as a literal quotation is part of a unit of the own tenant and submission |
| Provenance.AnchorsAreGrounded | specification/models_v1.1(1).py:1307-1311 | every anchor fragment shows evidence of its question, which is grounded in the planned opportunity, the variant match and the own submission |
| Coverage.GroupsPartition | src/comprehension_verification/cli.py:276-303 | counts per distinct group add up to the number of keys when every key has a group |
| Coverage.CoverageIsConserved | src/comprehension_verification/cli.py:276-303 | assembled coverage sums to all mapped opportunities available and N selected |
| Coverage.ReportIsConserved | specification/models_v1.1(1).py:1965-1990 | the summary of any accepted report sums to the number of traces available and of PRIMARY traces selected |
| QuestionTurns.CoverageLine | src/comprehension_verification/cli.py:276-303 | each dimension has its coverage line: its variants, the mapped opportunities and the questions in it, and the distinct evidence of those opportunities |
| QuestionTurns.AssembledFields | src/comprehension_verification/cli.py:304-343 | an assembled assessment holds these questions with different identifiers, their coverage, the mode of the blueprint and exactly the questions that ask for justification |
| QuestionTurns.RequiredInOrder | src/comprehension_verification/cli.py:304-308 | the identifiers of the questions that ask for justification stand in the order of the questions |
| QuestionTurns.AssessmentAccepted | specification/models_v1.1(1).py:1398-1441 | an assessment satisfies its model iff it has N questions with different identifiers that cite nothing, names exactly those that ask for justification, and these suit the mode: some under SELECTED, all under ALL, none under NOT_REQUIRED |
| QuestionTurns.ReportAccepted | specification/models_v1.1(1).py:1965-1990 | a report is accepted iff its summary has one line per dimension, every trace lies in one, and every line counts the traces of its dimension: all, primary, reused, their variants and their evidence |
| Run.RunStages | src/comprehension_verification/cli.py:548-663 | the stages of a run, in their order, end with the specified assessment, plan without questions, or first error |
| Run.WhatStopsARun | src/comprehension_verification/cli.py:548-663 | once the first validation has passed, planning raises iff the status of the map is neither READY nor a planning failure; otherwise a run raises iff its plan is READY and a question is refused, question identifiers repeat, a source is cited, or the planned flags do not suit the mode, with the error of the first refusal or of the assembly |
| JustificationModes.TechnicalFailureStopsARun | src/comprehension_verification/planning.py:114-120 | a concrete empty TECHNICAL_FAILURE map with its diagnostic passes validation and makes planning raise |
| RepeatedCandidates.RepeatedCandidateStopsARun | src/comprehension_verification/cli.py:582-663 | a concrete accepted activity with a READY plan of two questions, both accepted: its run fails at assembly iff the model gave both candidates one identifier |
| JustificationModes.ModesAreNotEnforcedByPlanning | src/comprehension_verification/cli.py:304-363 | concrete accepted one-question activities, planned READY and with an accepted question: under ALL the run fails when the template asks for no justification, under NOT_REQUIRED when it does |
| Run.AssessedRunIsWhole | src/comprehension_verification/cli.py:548-663 | a run that ends with an assessment has N questions within the target, minutes equal to the plan, complete coverage counts and only grounded evidence |
| Text.SplitJoin | src/comprehension_verification/contract_validation.py:170 | splitting undoes joining when no part contains the separator |
| Text.ParseIntDecimal | src/comprehension_verification/contract_validation.py:177 | int() reads back every decimal numeral |
| PointerParts.ParseIntMeans | src/comprehension_verification/contract_validation.py:177 | int() reads a text as a number iff it is white space, at most one sign, groups of digits joined by single underscores with that value, and white space, and no ASCII text with a separator control |
| PointerParts.ItemAtMeans | src/comprehension_verification/contract_validation.py:177 | a list index leads to an entry iff it is its position, or its position less the length |
| PointerParts.ReplaceIsJoin | src/comprehension_verification/contract_validation.py:171 | replacing a pair takes the text apart at every place where the pair stands and joins the parts with the new character |
| JsonPointer.ResolveLocalJsonPointer | src/comprehension_verification/contract_validation.py:162-182 | the loop that walks the document returns the specified node or error |
| JsonPointer.DecodeEscape | src/comprehension_verification/contract_validation.py:171 | decoding ~1 before ~0 inverts the RFC 6901 escaping of every string |
| JsonPointer.OtherOrderFails | src/comprehension_verification/contract_validation.py:171 | decoding in the other order does not: a concrete key shows it |
| JsonPointer.PointerRoundTrip | src/comprehension_verification/contract_validation.py:162-182 | resolving # followed by the JSON Pointer (sections 3 and 4 of RFC 6901) of any path of keys and indices returns exactly the node at that path |
| PointerSpelling.FragmentSpellsEncodedKeys | src/comprehension_verification/contract_validation.py:165-171 | to the resolver the URI fragment of a path (section 6) spells the path of the percent-encoded keys, since nothing is decoded |
| PointerSpelling.FragmentWorksIffPlain | src/comprehension_verification/contract_validation.py:165-171 | the URI fragment of a path leads to its node in every document that has it iff no key on the path needs percent-encoding |
| PointerSpelling.PercentEncodingIsNotUndone | src/comprehension_verification/contract_validation.py:165-171 | the standard's own example #/c%25d for the key c%d finds nothing, or another node |
| PointerSpelling.ResolvedIsSpelledIffStrict | src/comprehension_verification/contract_validation.py:169-182 | a reference that resolves is the JSON Pointer of a path iff its parts are well escaped where they are used on objects and plain decimals where they are used on arrays |
| PointerSpelling.ForeignSpellingsResolve | src/comprehension_verification/contract_validation.py:171-178 | a negative index, a leading zero and a tilde that escapes nothing resolve although sections 3 and 4 do not allow them |
| JsonPointer.ResolvedIsInside | src/comprehension_verification/contract_validation.py:169-182 | whatever a reference resolves to is a node of the same document |
| JsonPointer.WalkReferences | src/comprehension_verification/contract_validation.py:144-159 | the recursion that extends a list returns the specified references or error |
| JsonPointer.RefPathsExact | src/comprehension_verification/contract_validation.py:144-159 | the paths visited are exactly the $ref keys of the tree, each once |
| JsonPointer.WalkIsExact | src/comprehension_verification/contract_validation.py:144-159 | the walk fails iff some $ref is not a string, and otherwise reports every $ref at any depth once, with its string |
| JsonPointer.CrawlIsExact | src/comprehension_verification/contract_validation.py:185-191 | a bundle is accepted iff every $ref at any depth is a string that resolves inside the same document |
| JsonPointer.CrawlSchemaReferences | src/comprehension_verification/contract_validation.py:185-191 | the crawl walks and then resolves reference by reference, with the specified references or the first error |
| JsonPointer.CrawlReports | src/comprehension_verification/contract_validation.py:185-191 | an accepted bundle is reported reference by reference, each once, with its path and string; one with a $ref that is not a string is refused for that, any other with the error of a reference that does not resolve |
| JsonPointer.ResolveRaises | src/comprehension_verification/contract_validation.py:162-182 | resolution calls a reference not local iff it is neither # nor begins with #/, and has one other error |
| FixtureScanner.FindFenceEnd | src/comprehension_verification/contract_validation.py:289-295 | the loop returns the first line after the opening one that closes the fence, in the sense of `FixtureSyntax.ClosesIff`, or nothing |
| FixtureScanner.SkipBlanks | src/comprehension_verification/contract_validation.py:317-319 | the loop stops at the first line that is not blank, or at the end |
| FixtureScanner.ReadFixture | src/comprehension_verification/contract_validation.py:316-341 | handling one tag gives the specified fixture and next line, or the specified error |
| FixtureScanner.ExtractMarkdownContractFixtures | src/comprehension_verification/contract_validation.py:298-342 | the single-index loop ends on every input with the specified fixtures or error, told by the lines in `FixtureOutcomes` |
| FixtureProperties.FenceEndSpec | src/comprehension_verification/contract_validation.py:289-295 | the fence end is the least closing line; there is none iff no line closes |
| FixtureProperties.StepIsLocal | src/comprehension_verification/contract_validation.py:304-341 | a scanning step depends only on the lines it consumes |
| FixtureProperties.ScanSplits | src/comprehension_verification/contract_validation.py:304-341 | a scan is what was found before any line it reaches, followed by the scan from that line |
| FixtureProperties.FencedTextIsIgnored | src/comprehension_verification/contract_validation.py:305-309 | replacing the inside of an untagged closed fence by any lines that do not close it leaves the extracted names and JSON unchanged, and line numbers too when the length is kept |
| FixtureProperties.ScanIsExact | src/comprehension_verification/contract_validation.py:298-342 | the fixtures found are exactly the tagged blocks at lines the scan reaches outside blocks |
| FixtureProperties.TagLinesIncrease | src/comprehension_verification/contract_validation.py:333-340 | reported tag lines strictly increase and lie in the document |
| FixtureProperties.BlocksAreDisjoint | src/comprehension_verification/contract_validation.py:304-341 | the lines consumed at one reached line end before the next reached line |
| FixtureProperties.FailureIsExact | src/comprehension_verification/contract_validation.py:298-342 | a scan fails iff a step at a line it reaches outside blocks raises, and the error names the problem and line of that step |
| FixtureProperties.UnclosedFenceIsAnError | src/comprehension_verification/contract_validation.py:289-295 | extraction reports an unclosed fence at a line iff the scan stands at that fence, or at a tag whose JSON fence it is, and no later line closes it; section 4.5 of CommonMark 0.31.2 closes it at the end of the document |
| FixtureSyntax.ClosesIff | src/comprehension_verification/contract_validation.py:284-286 | a line closes a fence iff it is up to three spaces, the marker of the fence at least as often as it was opened, and white space |
| FixtureSyntax.OpensIff | src/comprehension_verification/contract_validation.py:273-281 | a line opens a fence iff it is up to three spaces, at least three equal markers and a text on the same line, without backticks behind backticks; the fence is the marker, its number and the stripped text |
| FixtureSyntax.TagIff | src/comprehension_verification/contract_validation.py:38-40 | a line is a tag of a name iff it is an HTML comment that holds the keyword and that name, with any white space around the parts |
| FixtureSyntax.JsonInfoIff | src/comprehension_verification/contract_validation.py:323 | an info text counts as json iff it folds to it, the long s included |
| Text.StripIs | src/comprehension_verification/contract_validation.py:278 | str.strip returns the text between maximal white space at both ends |
| Text.SpaceIs | src/comprehension_verification/contract_validation.py:278 | the white space of Python strings, code point by code point |
| FixtureOutcomes.FoundStep | src/comprehension_verification/contract_validation.py:311-341 | a step reads a fixture iff a tag there has, behind blank lines only, a JSON fence that is closed, around an accepted text; it is the name of the tag, the lines between the fences and the number of the tag line |
| FixtureOutcomes.MoveStep | src/comprehension_verification/contract_validation.py:305-314 | a step passes over one plain line, or over a fence up to the first line that closes it, and over nothing else |
| FixtureOutcomes.ReachesMeans | src/comprehension_verification/contract_validation.py:302-341 | the scan stands outside blocks at the first line and behind a plain line, a closed fence or an accepted fixture at such a line, and nowhere else |
| FixtureOutcomes.ExtractedAre | src/comprehension_verification/contract_validation.py:298-342 | the fixtures of a successful extraction are those of the tags at such lines, told by the lines alone |
| FixtureOutcomes.MissingFenceIsAnError | src/comprehension_verification/contract_validation.py:320-326 | the error of a tag without a JSON fence is raised at a line iff the scan stands at a tag there whose next line that is not blank opens no JSON fence |
| FixtureOutcomes.InvalidJsonIsAnError | src/comprehension_verification/contract_validation.py:327-341 | the error of invalid JSON is raised at a line iff the scan stands at a tag there whose closed JSON fence holds a text that is not accepted |
| FixturePrinting.TagLineIsTag | src/comprehension_verification/contract_validation.py:38-40 | a tag written with any white space around its parts is read as that name |
| FixturePrinting.OpenLineOpens | src/comprehension_verification/contract_validation.py:273-281 | a fence of either marker, up to three spaces and any spacing and case of json opens with its marker, length and info |
| FixturePrinting.CloseLineCloses | src/comprehension_verification/contract_validation.py:284-286 | an indented line of at least as many markers with white space behind closes the fence |
| FixturePrinting.LongFenceHoldsAnything | src/comprehension_verification/contract_validation.py:284-286 | a fence longer than all lines inside is closed by none of them, so every JSON text can be printed |
| FixturePrinting.IndentedLineIsNoFence | src/comprehension_verification/contract_validation.py:41 | a line indented by four spaces neither opens nor closes a fence |
| FixturePrinting.PrintedIsExtracted | src/comprehension_verification/contract_validation.py:298-342 | printing any list of names and JSON lines that do not close their fence as tagged fences of any length from three, with prose and whole untagged fenced examples between them, and scanning the result gives the list back, with the line of every tag |
| Canonical.QuoteIsReadBack | src/comprehension_verification/canonical.py:34-41 | reading a quoted string by section 7 of RFC 8259 returns the string and stops right after it |
| Canonical.PrintUnambiguous | src/comprehension_verification/canonical.py:34-41 | two equal compact texts, each followed by a delimiter, come from the same tree |
| Canonical.CanonicalTextIsReadBack | src/comprehension_verification/canonical.py:34-41 | a reader of compact JSON after RFC 8259 takes the canonical text as one value with nothing left, and this is the original value with, in every dictionary at every depth, each key before the later ones in code point order |
| Canonical.NormalFormAscends | src/comprehension_verification/canonical.py:34-41 | in the normal form, at every depth, of two keys the first is a proper prefix of the later or has the smaller code point at the first difference |
| Canonical.PrintedIsReadBack | src/comprehension_verification/canonical.py:34-41 | a reader of compact JSON reads every printed tree back and stops right behind it |
| Canonical.EscapeIsShortest | src/comprehension_verification/canonical.py:34-41 | every character is written in the shortest spelling that section 7 of RFC 8259 reads as it, with hexadecimal digits in lower case |
| Canonical.CanonicalTextIsFaithful | src/comprehension_verification/canonical.py:16-41 | two string-keyed trees have the same canonical text iff they hold the same value: insertion order never shows and nothing else is confused; which text it is, is `CanonicalTextIsReadBack` |
| StageCache.LocalArtifactStore.RunCached | src/comprehension_verification/storage.py:70-105 | one call gives the specified answer and changes the cache by at most the one entry that the producer delivered |
| StageCache.KeyIdentifiesRequest | src/comprehension_verification/storage.py:53-68 | two calls share a key iff they make the same request, barring digest collisions among the texts in question |
| StageCache.KeyDocumentLookups | src/comprehension_verification/storage.py:53-68 | the hashed document holds stage name, inputs, policy hash and component version under four different keys |
| StageCache.EntriesAreStable | src/comprehension_verification/storage.py:86-105 | over any run nothing changes or removes a stored entry |
| StageCache.EntryOrigin | src/comprehension_verification/storage.py:94-105 | every entry was written by one earlier call whose producer delivered the value that it holds, under the key of that request and with its stage name, policy hash, component version and output model |
| StageCache.CacheRefinesProducer | src/comprehension_verification/storage.py:70-105 | over any sequence of well-behaved calls each call returns what its producer would return; a producer that would raise is heard unless an equal request was delivered before |
| StageCache.ProducedOnce | src/comprehension_verification/storage.py:87-105 | after one delivered request every later equal request is a hit with the value delivered then, so its producer is not run |
| StageCache.MismatchIsAnotherModel | src/comprehension_verification/storage.py:89-90 | without any discipline on callers, a hit is refused for its metadata iff the entry was written for another output model |

## Left out

- Rounding: scores, overlaps, confidences and thresholds are exact reals, so order independence of scores is not claimed for IEEE floats.
- Numbers with a fraction in JSON trees, the digits beyond ASCII that `int()` also accepts and its limit on the number of digits.
- Hashing: `stable_id` and plan identifiers are kept as what is hashed, or as a function, and stage keys rest on the stated absence of digest collisions among the texts of one run.
- The UTF-8 encoding of canonical text, lone surrogates included; `to_jsonable` on models, dates, enumerations and paths.
- Pydantic parsing and dumping: that an output model survives its own JSON round trip is a hypothesis (`WellBehaved`), and field bounds are modelled only where a proof uses them.
- Texts of messages and diagnostics; which of two ValueErrors the planner raises for an unusable mapping is one error in the model.
- The secret, personal-data and prohibited-claim patterns are a screening function passed in; the strict JSON parser of the fixture scanner is a predicate passed in.
- The content of choice questions, element descriptions, timestamps, lineage, ledgers and other fields that no modelled check or stage reads.
- File input and output: atomic replacement, cache entries damaged or written by others, and `write_json` into the cache directory. The scanner starts from the list of lines, because `splitlines` splits on more than newlines.
- JSON Schema validation, the schema drift check and the generated schema.
- Whether a plan stays feasible after a reserve entry replaces a primary: the code does not check reserves against minutes or overlap, so no such property holds.
- The variant and evidence counts of assembled coverage are computed as the code does but no sum over them is claimed, since evidence and variants can be shared between dimensions.
- The model gateway, parsers, exports, the web repository and the front end; model calls of the question loop are functions passed in.
- SearchExactness.ExactWithoutOverflow: one direction only, because a beam can overflow without losing the best selection; the exact condition is `Survival.SearchFindsBestStaying`.
- StageCache.CacheRefinesProducer: a producer that raises is not run when an equal request was delivered before, so its exception is not reproduced then.
