/** `_deduplicate_planning_opportunities`: one opportunity per evidence set. */
module Deduplication {
  import opened Orders
  import opened Results
  import opened Contracts
  import opened Scoring
  import opened Validation

  /** The sorted evidence of an opportunity. */
  function Signature(o: Opportunity): seq<string> { SortBy(StringLeq, o.evidenceIds) }

  /** `o` repeats the signature of a member of `os`. */
  predicate Repeats(os: seq<Opportunity>, o: Opportunity) {
    exists k :: 0 <= k < |os| && Signature(os[k]) == Signature(o)
  }

  /** The opportunities that no earlier one repeats, in order. */
  function Firsts(os: seq<Opportunity>): seq<Opportunity> {
    if os == [] then []
    else
      var before, last := os[..|os|-1], os[|os|-1];
      Firsts(before) + if Repeats(before, last) then [] else [last]
  }

  function Deduplicated(mapping: Mapping): Mapping {
    if mapping.status != Ready then mapping else mapping.(opportunities := Firsts(mapping.opportunities))
  }

  function Signatures(os: seq<Opportunity>): set<seq<string>> { set o | o in os :: Signature(o) }

  lemma OneMore(os: seq<Opportunity>, i: nat)
    requires i < |os|
    ensures Firsts(os[..i+1]) == Firsts(os[..i]) + if Repeats(os[..i], os[i]) then [] else [os[i]]
    ensures Signatures(os[..i+1]) == Signatures(os[..i]) + {Signature(os[i])}
    ensures Repeats(os[..i], os[i]) <==> Signature(os[i]) in Signatures(os[..i])
  {
    hide Signature;
    assert os[..i+1][..i] == os[..i] && os[..i+1] == os[..i] + [os[i]];
    if Repeats(os[..i], os[i]) {
      var k :| 0 <= k < i && Signature(os[..i][k]) == Signature(os[i]);
      assert os[..i][k] in os[..i];
    }
  }

  method DeduplicatePlanningOpportunities(mapping: Mapping) returns (r: Mapping)
    ensures r == Deduplicated(mapping)
  {
    hide Firsts, Repeats, Signatures, Signature;
    if mapping.status != Ready {
      return mapping;
    }
    var os := mapping.opportunities;
    var seen: set<seq<string>> := {};
    var unique: seq<Opportunity> := [];
    NothingYet();
    for i := 0 to |os|
      invariant unique == Firsts(os[..i]) && seen == Signatures(os[..i])
    {
      OneMore(os, i);
      var signature := Signature(os[i]);
      if signature in seen {
        continue;
      }
      seen := seen + {signature};
      unique := unique + [os[i]];
    }
    assert os[..|os|] == os;
    return mapping.(opportunities := unique);
  }

  lemma NothingYet()
    ensures Firsts([]) == [] && Signatures([]) == {}
  {
  }

  // ---- What is kept ----

  /** `kept` is `os` at the increasing positions `at`. */
  ghost predicate Picks(os: seq<Opportunity>, kept: seq<Opportunity>, at: seq<nat>) {
    && |at| == |kept| && (forall k, l :: 0 <= k < l < |at| ==> at[k] < at[l])
    && forall k :: 0 <= k < |at| ==> at[k] < |os| && kept[k] == os[at[k]]
  }

  lemma PickOneMore(os: seq<Opportunity>, n: nat, kept: seq<Opportunity>, at: seq<nat>)
    requires n < |os| && Picks(os[..n], kept, at)
    ensures Picks(os[..n+1], kept, at) && Picks(os[..n+1], kept + [os[n]], at + [n])
  {
    forall k | 0 <= k < |at| ensures kept[k] == os[..n+1][at[k]] {
      assert os[..n][at[k]] == os[..n+1][at[k]];
    }
  }

  lemma {:induction false} KeepsOrderUpTo(os: seq<Opportunity>, n: nat) returns (at: seq<nat>)
    requires n <= |os|
    ensures Picks(os[..n], Firsts(os[..n]), at)
    ensures forall i: nat :: i in at <==> i < n && !Repeats(os[..i], os[i])
  {
    hide Repeats, Picks, Firsts;
    if n == 0 {
      at := [];
      NothingYet();
      NothingPicked(os);
    } else {
      var earlier := KeepsOrderUpTo(os, n - 1);
      OneMore(os, n - 1);
      PickOneMore(os, n - 1, Firsts(os[..n-1]), earlier);
      if Repeats(os[..n-1], os[n-1]) {
        at := earlier;
        assert Firsts(os[..n]) == Firsts(os[..n-1]);
      } else {
        at := earlier + [n - 1];
      }
    }
  }

  lemma NothingPicked(os: seq<Opportunity>)
    ensures Picks(os[..0], [], [])
  {
  }

  /** The kept opportunities stand in their original order: they are those at the
      increasing positions that repeat nothing before them. */
  lemma KeepsOrder(os: seq<Opportunity>) returns (at: seq<nat>)
    ensures Picks(os, Firsts(os), at)
    ensures forall i: nat :: i in at <==> i < |os| && !Repeats(os[..i], os[i])
  {
    at := KeepsOrderUpTo(os, |os|);
    assert os[..|os|] == os;
  }

  /** No signature is lost. */
  lemma {:induction false} SignaturesKept(os: seq<Opportunity>)
    ensures forall o :: o in os ==> Repeats(Firsts(os), o)
  {
    hide Signature;
    if os != [] {
      var n := |os| - 1;
      var before, last := os[..n], os[n];
      var kept := Firsts(before);
      SignaturesKept(before);
      forall o | o in os ensures Repeats(Firsts(os), o) {
        if o in before {
          var k :| 0 <= k < |kept| && Signature(kept[k]) == Signature(o);
          assert Firsts(os)[k] == kept[k];
        } else if Repeats(before, last) {
          var k :| 0 <= k < |before| && Signature(before[k]) == Signature(last);
          assert before[k] in before;
          var j :| 0 <= j < |kept| && Signature(kept[j]) == Signature(before[k]);
          assert Firsts(os)[j] == kept[j];
        } else {
          assert Firsts(os)[|kept|] == last;
        }
      }
    }
  }

  /** Exactly the first opportunity of each signature is kept. */
  lemma KeepsExactlyFirsts(os: seq<Opportunity>)
    ensures forall o :: o in Firsts(os) <==> exists i :: 0 <= i < |os| && os[i] == o && !Repeats(os[..i], o)
    ensures forall o :: o in os ==> Repeats(Firsts(os), o)
  {
    SignaturesKept(os);
    hide Repeats, Firsts;
    var at := KeepsOrder(os);
    var kept := Firsts(os);
    forall o ensures o in kept <==> exists i :: 0 <= i < |os| && os[i] == o && !Repeats(os[..i], o) {
      if o in kept {
        var k :| 0 <= k < |kept| && kept[k] == o;
        assert at[k] in at && os[at[k]] == o;
      }
      if i: nat :| i < |os| && os[i] == o && !Repeats(os[..i], o) {
        var k :| 0 <= k < |at| && at[k] == i;
        assert kept[k] == o;
      }
    }
  }

  predicate DistinctSignatures(os: seq<Opportunity>) {
    forall i, j :: 0 <= i < j < |os| ==> Signature(os[i]) != Signature(os[j])
  }

  lemma {:induction false} FirstsDiffer(os: seq<Opportunity>)
    ensures DistinctSignatures(Firsts(os))
    ensures |Firsts(os)| <= |os|
  {
    hide Signature;
    if os != [] {
      var before, last := os[..|os|-1], os[|os|-1];
      FirstsDiffer(before);
      KeepsExactlyFirsts(before);
      var kept := Firsts(before);
      forall i | 0 <= i < |kept| && Signature(kept[i]) == Signature(last) ensures Repeats(before, last) {
        assert kept[i] in kept;
        var k :| 0 <= k < |before| && before[k] == kept[i];
      }
    }
  }

  lemma {:induction false} NothingToDrop(os: seq<Opportunity>)
    requires DistinctSignatures(os)
    ensures Firsts(os) == os
  {
    hide Signature;
    if os != [] {
      var before, last := os[..|os|-1], os[|os|-1];
      NothingToDrop(before);
      assert os == before + [last];
    }
  }

  /** Deduplicating twice changes nothing more. */
  lemma DeduplicationIsIdempotent(mapping: Mapping)
    ensures Deduplicated(Deduplicated(mapping)) == Deduplicated(mapping)
  {
    FirstsDiffer(mapping.opportunities);
    NothingToDrop(Firsts(mapping.opportunities));
  }

  // ---- Validity survives ----

  lemma {:induction false} FirstsKeepIds(os: seq<Opportunity>)
    requires NoDup(IdsOf(os))
    ensures NoDup(IdsOf(Firsts(os)))
  {
    hide Signature;
    if os != [] {
      var before, last := os[..|os|-1], os[|os|-1];
      assert forall i, j :: 0 <= i < j < |os| ==> IdsOf(os)[i] != IdsOf(os)[j];
      assert IdsOf(before) == IdsOf(os)[..|os|-1];
      FirstsKeepIds(before);
      KeepsExactlyFirsts(before);
      var kept, all := Firsts(before), Firsts(os);
      forall i | 0 <= i < |kept| ensures kept[i].opportunityId != last.opportunityId {
        assert kept[i] in kept;
        var k :| 0 <= k < |before| && before[k] == kept[i];
        assert IdsOf(os)[k] != IdsOf(os)[|os|-1];
      }
      forall i, j | 0 <= i < j < |all| ensures IdsOf(all)[i] != IdsOf(all)[j] {
        assert j < |kept| ==> IdsOf(kept)[i] != IdsOf(kept)[j];
      }
    }
  }

  /** A mapping the validator accepts is still accepted after deduplication. */
  lemma DeduplicationKeepsValidity(mapping: Mapping, blueprint: Blueprint, bundle: Bundle)
    requires MappingModel(mapping) && CheckEvidenceMap(mapping, blueprint, bundle).Pass?
    ensures MappingModel(Deduplicated(mapping)) && CheckEvidenceMap(Deduplicated(mapping), blueprint, bundle).Pass?
  {
    hide CheckEvidenceMap, CheckOpportunity, CheckEvidenceContext, Firsts, Repeats, NoDup, IdsOf;
    if mapping.status == Ready {
      var ix, evidence := BlueprintIndex(blueprint), EvidenceById(bundle.units);
      var byPath, kept := MatchesByPath(mapping.matches), Firsts(mapping.opportunities);
      FirstsKeepIds(mapping.opportunities);
      FirstsAreMembers(mapping.opportunities);
      AcceptedReadyMap(mapping, blueprint, bundle);
      AcceptedReadyMap(Deduplicated(mapping), blueprint, bundle);
      OpportunitiesPass(mapping.opportunities, mapping.submissionId, ix, byPath, evidence);
      OpportunitiesPass(kept, mapping.submissionId, ix, byPath, evidence);
    }
  }

  lemma FirstsAreMembers(os: seq<Opportunity>)
    ensures forall o :: o in Firsts(os) ==> o in os
  {
    KeepsExactlyFirsts(os);
  }

  // ---- The evidence that is left differs ----

  /** Two opportunities have one signature exactly when they cite the same identifiers
      equally often; without repeated identifiers, when their evidence sets are equal. */
  lemma SignatureIsSet(a: Opportunity, b: Opportunity)
    ensures Signature(a) == Signature(b) <==> multiset(a.evidenceIds) == multiset(b.evidenceIds)
    ensures NoDup(a.evidenceIds) && NoDup(b.evidenceIds) ==> (Signature(a) == Signature(b) <==> Evidence(a) == Evidence(b))
  {
    hide StringLeq;
    var x, y := a.evidenceIds, b.evidenceIds;
    if Signature(a) == Signature(b) {
      assert multiset(x) == multiset(Signature(a)) == multiset(y);
      SameMembers(x, y);
    }
    if multiset(x) == multiset(y) {
      StringOrder();
      SortForgetsOrder(StringLeq, x, y);
    }
    if NoDup(x) && NoDup(y) && Evidence(a) == Evidence(b) {
      assert forall e :: (e in x <==> e in Evidence(a)) && (e in y <==> e in Evidence(b));
      NoDupSameMembers(x, y);
    }
  }

  /** After deduplicating an accepted mapping no two opportunities overlap fully. */
  lemma DeduplicatedOverlapsBelowOne(mapping: Mapping, blueprint: Blueprint, bundle: Bundle, i: nat, j: nat)
    requires MappingModel(mapping) && mapping.status == Ready && CheckEvidenceMap(mapping, blueprint, bundle).Pass?
    requires i < j < |Deduplicated(mapping).opportunities|
    ensures Overlap(Deduplicated(mapping).opportunities[i], Deduplicated(mapping).opportunities[j]) < 1.0
  {
    hide Signature, Repeats;
    var kept := Firsts(mapping.opportunities);
    FirstsDiffer(mapping.opportunities);
    KeepsExactlyFirsts(mapping.opportunities);
    assert kept[i] in kept && kept[j] in kept;
    AcceptedEvidenceDistinct(mapping, blueprint, bundle);
    SignatureIsSet(kept[i], kept[j]);
    OverlapRange(kept[i], kept[j]);
  }

  lemma AcceptedEvidenceDistinct(mapping: Mapping, blueprint: Blueprint, bundle: Bundle)
    requires mapping.status == Ready && CheckEvidenceMap(mapping, blueprint, bundle).Pass?
    ensures forall o :: o in mapping.opportunities ==> NoDup(o.evidenceIds)
  {
    hide CheckEvidenceMap, CheckOpportunity, NoDup;
    var ix, evidence, byPath := BlueprintIndex(blueprint), EvidenceById(bundle.units), MatchesByPath(mapping.matches);
    AcceptedReadyMap(mapping, blueprint, bundle);
    OpportunitiesPass(mapping.opportunities, mapping.submissionId, ix, byPath, evidence);
    forall o | o in mapping.opportunities ensures NoDup(o.evidenceIds) {
      AcceptedOpportunity(o, mapping.submissionId, ix, byPath, evidence);
    }
  }
}
