/** The probation list (indexprotocol/votings/probation.go): votes of the listed operators are scaled down by
    the rate (100 - intensity) / 100, taken as an exact fraction. */
module Probation {
  import opened Bytes
  import opened Wrappers
  import opened Schema
  import opened Ranking

  /** Multiplication by the rate, truncated. */
  function Penalised(votes: int, intensityRate: nat): int
    requires intensityRate <= 100
  {
    votes * (100 - intensityRate) / 100
  }

  lemma PenaltyLowers(votes: int, intensityRate: nat)
    requires votes >= 0 && intensityRate <= 100
    ensures 0 <= Penalised(votes, intensityRate) <= votes
    ensures intensityRate == 0 ==> Penalised(votes, intensityRate) == votes
  {
    assert 0 <= votes * (100 - intensityRate) <= votes * 100;
  }

  /** The addresses on the list. */
  function Listed(list: ProbationList): set<Str> {
    set i | 0 <= i < |list.entries| :: list.entries[i].address
  }

  /** A candidate after the filter: fewer votes if its operator is listed, otherwise unchanged. */
  function Filtered(c: Candidate, list: ProbationList): Candidate
    requires list.intensityRate <= 100
  {
    if c.operatorAddress in Listed(list)
        then c.(totalWeightedVotes := Penalised(c.totalWeightedVotes, list.intensityRate))
    else c
  }

  /** The filtered candidate kept for each operator among the first n; a later one replaces an earlier one. */
  function ByOperatorTo(candidates: seq<Candidate>, list: ProbationList, n: nat): map<Str, Candidate>
    requires n <= |candidates| && list.intensityRate <= 100
  {
    if n == 0 then map[]
    else ByOperatorTo(candidates, list, n - 1)[candidates[n - 1].operatorAddress := Filtered(candidates[n - 1], list)]
  }

  function ByOperator(candidates: seq<Candidate>, list: ProbationList): map<Str, Candidate>
    requires list.intensityRate <= 100
  {
    ByOperatorTo(candidates, list, |candidates|)
  }

  /** Every candidate after the filter, in the original order. */
  function FilteredAll(candidates: seq<Candidate>, list: ProbationList): (all: seq<Candidate>)
    requires list.intensityRate <= 100
    ensures |all| == |candidates| && forall i :: 0 <= i < |all| ==> all[i] == Filtered(candidates[i], list)
  {
    seq(|candidates|, i requires 0 <= i < |candidates| => Filtered(candidates[i], list))
  }

  lemma {:induction false} ByOperatorIsKeyed(candidates: seq<Candidate>, list: ProbationList, n: nat)
    requires n <= |candidates| && list.intensityRate <= 100
    ensures forall op :: op in ByOperatorTo(candidates, list, n) ==>
              && ByOperatorTo(candidates, list, n)[op].operatorAddress == op
              && ByOperatorTo(candidates, list, n)[op] in FilteredAll(candidates, list)
  {
    if n > 0 {
      ByOperatorIsKeyed(candidates, list, n - 1);
      assert FilteredAll(candidates, list)[n - 1] == Filtered(candidates[n - 1], list);
    }
  }

  /** Decreasing votes, one candidate for each operator of the map. */
  ghost predicate SortedFrom(result: seq<Candidate>, byOperator: map<Str, Candidate>) {
    && (forall i ::
          0 <= i < |result| ==>
            result[i].operatorAddress in byOperator && result[i] == byOperator[result[i].operatorAddress])
    && (forall op :: op in byOperator ==> exists i :: 0 <= i < |result| && result[i].operatorAddress == op)
    && (forall i, j :: 0 <= i < j < |result| ==>
          result[i].operatorAddress != result[j].operatorAddress
            && result[i].totalWeightedVotes >= result[j].totalWeightedVotes)
  }

  /** filterStakingCandidates. The final sort is any order by decreasing votes. */
  method FilterStakingCandidates(candidates: seq<Candidate>, list: ProbationList) returns (verified: seq<Candidate>)
    requires list.intensityRate <= 100
    ensures SortedFrom(verified, ByOperator(candidates, list))
  {
    var probation: set<Str> := {};
    for i := 0 to |list.entries|
      invariant probation == set j | 0 <= j < i :: list.entries[j].address
    {
      probation := probation + {list.entries[i].address};
    }
    var byOperator: map<Str, Candidate> := map[];
    var votes: map<Str, int> := map[];
    for i := 0 to |candidates|
      invariant byOperator == ByOperatorTo(candidates, list, i)
      invariant votes.Keys == byOperator.Keys
                && forall op :: op in votes ==> votes[op] == byOperator[op].totalWeightedVotes
    {
      var c := candidates[i];
      if c.operatorAddress in probation {
        c := c.(totalWeightedVotes := c.totalWeightedVotes * (100 - list.intensityRate) / 100);
      }
      votes := votes[c.operatorAddress := c.totalWeightedVotes];
      byOperator := byOperator[c.operatorAddress := c];
    }
    ByOperatorIsKeyed(candidates, list, |candidates|);
    verified := SortCandidates(byOperator, votes);
  }

  /** The candidates of a ranking of the operators. */
  lemma RankedAreSorted(sorted: seq<Str>, votes: map<Str, int>, byOperator: map<Str, Candidate>, result: seq<Candidate>)
    requires IsRanking(sorted, votes) && votes.Keys == byOperator.Keys
    requires forall op ::
               op in byOperator ==>
                 byOperator[op].operatorAddress == op && votes[op] == byOperator[op].totalWeightedVotes
    requires |result| == |sorted|
    requires forall i :: 0 <= i < |sorted| ==> sorted[i] in byOperator && result[i] == byOperator[sorted[i]]
    ensures SortedFrom(result, byOperator)
  {
    forall i | 0 <= i < |result|
      ensures result[i].operatorAddress == sorted[i] && result[i].totalWeightedVotes == votes[sorted[i]]
    {
      assert sorted[i] in byOperator;
    }
    forall op | op in byOperator ensures exists i :: 0 <= i < |result| && result[i].operatorAddress == op {
      assert op in sorted;
      var i :| 0 <= i < |sorted| && sorted[i] == op;
      assert result[i].operatorAddress == op;
    }
  }

  /** The sort by updated voting power, and the list it yields. */
  method SortCandidates(byOperator: map<Str, Candidate>, votes: map<Str, int>) returns (verified: seq<Candidate>)
    requires votes.Keys == byOperator.Keys
    requires forall op ::
               op in byOperator ==>
                 byOperator[op].operatorAddress == op && votes[op] == byOperator[op].totalWeightedVotes
    ensures SortedFrom(verified, byOperator)
  {
    var sorted := SortByVotes(votes);
    verified := [];
    for i := 0 to |sorted|
      invariant |verified| == i && forall j :: 0 <= j < i ==> verified[j] == byOperator[sorted[j]]
    {
      verified := verified + [byOperator[sorted[i]]];
    }
    RankedAreSorted(sorted, votes, byOperator, verified);
  }

  ghost predicate UniqueOperators(candidates: seq<Candidate>) {
    forall i, j :: 0 <= i < j < |candidates| ==> candidates[i].operatorAddress != candidates[j].operatorAddress
  }

  ghost predicate UniqueOwners(candidates: seq<Candidate>) {
    forall i, j :: 0 <= i < j < |candidates| ==> candidates[i].ownerAddress != candidates[j].ownerAddress
  }

  /** The operators of the first n candidates. */
  function Operators(candidates: seq<Candidate>, n: nat): set<Str>
    requires n <= |candidates|
  {
    set i | 0 <= i < n :: candidates[i].operatorAddress
  }

  lemma {:induction false} DistinctCount(candidates: seq<Candidate>, n: nat)
    requires n <= |candidates| && UniqueOperators(candidates)
    ensures |Operators(candidates, n)| == n
  {
    if n > 0 {
      DistinctCount(candidates, n - 1);
      assert Operators(candidates, n) == Operators(candidates, n - 1) + {candidates[n - 1].operatorAddress};
    }
  }

  lemma {:induction false} AllKept(candidates: seq<Candidate>, list: ProbationList, n: nat)
    requires n <= |candidates| && list.intensityRate <= 100 && UniqueOperators(candidates)
    ensures forall i :: 0 <= i < n ==> candidates[i].operatorAddress in ByOperatorTo(candidates, list, n)
                                       && ByOperatorTo(candidates, list, n)[candidates[i].operatorAddress]
                                          == Filtered(candidates[i], list)
    ensures ByOperatorTo(candidates, list, n).Keys == Operators(candidates, n)
  {
    hide Filtered;
    if n > 0 {
      AllKept(candidates, list, n - 1);
      assert Operators(candidates, n) == Operators(candidates, n - 1) + {candidates[n - 1].operatorAddress};
    }
  }

  /** A reordering of the candidates: the same ones, each once. */
  ghost predicate Reordering(result: seq<Candidate>, all: seq<Candidate>) {
    && |result| == |all| && UniqueOperators(result)
    && forall c :: c in result <==> c in all
  }

  /** With unique operators the filter loses nobody: its result is a reordering of the filtered candidates. */
  lemma FilterReorders(result: seq<Candidate>, candidates: seq<Candidate>, list: ProbationList)
    requires list.intensityRate <= 100 && UniqueOperators(candidates)
    requires SortedFrom(result, ByOperator(candidates, list))
    ensures Reordering(result, FilteredAll(candidates, list))
  {
    var all := FilteredAll(candidates, list);
    KeptCount(result, candidates, list);
    hide *;
    forall c | c in all ensures c in result {
      var i :| 0 <= i < |all| && all[i] == c;
      NobodyLost(result, candidates, list, i);
    }
    forall c | c in result ensures c in all {
      var i :| 0 <= i < |result| && result[i] == c;
      NobodyAdded(result, candidates, list, i);
    }
    ReorderingOf(result, all);
  }

  lemma ReorderingOf(result: seq<Candidate>, all: seq<Candidate>)
    requires |result| == |all| && UniqueOperators(result)
    requires (forall c :: c in all ==> c in result) && forall c :: c in result ==> c in all
    ensures Reordering(result, all)
  {}

  lemma KeptCount(result: seq<Candidate>, candidates: seq<Candidate>, list: ProbationList)
    requires list.intensityRate <= 100 && UniqueOperators(candidates)
    requires SortedFrom(result, ByOperator(candidates, list))
    ensures |result| == |candidates| && UniqueOperators(result)
  {
    AllKept(candidates, list, |candidates|);
    hide ByOperatorTo;
    SameOperators(result, ByOperator(candidates, list));
    DistinctCount(result, |result|);
    DistinctCount(candidates, |candidates|);
  }

  lemma NobodyLost(result: seq<Candidate>, candidates: seq<Candidate>, list: ProbationList, i: nat)
    requires list.intensityRate <= 100 && UniqueOperators(candidates) && i < |candidates|
    requires SortedFrom(result, ByOperator(candidates, list))
    ensures Filtered(candidates[i], list) in result
  {
    AllKept(candidates, list, |candidates|);
    hide ByOperatorTo, Filtered;
    CandidateKept(result, ByOperator(candidates, list), candidates[i].operatorAddress);
  }

  lemma NobodyAdded(result: seq<Candidate>, candidates: seq<Candidate>, list: ProbationList, i: nat)
    requires list.intensityRate <= 100 && i < |result|
    requires SortedFrom(result, ByOperator(candidates, list))
    ensures result[i] in FilteredAll(candidates, list)
  {
    ByOperatorIsKeyed(candidates, list, |candidates|);
    hide ByOperatorTo, FilteredAll;
    assert result[i] == ByOperator(candidates, list)[result[i].operatorAddress];
  }

  lemma CandidateKept(result: seq<Candidate>, m: map<Str, Candidate>, op: Str)
    requires SortedFrom(result, m) && op in m
    ensures m[op] in result
  {
    var j :| 0 <= j < |result| && result[j].operatorAddress == op;
    assert result[j] == m[op];
  }

  lemma SameOperators(result: seq<Candidate>, m: map<Str, Candidate>)
    requires SortedFrom(result, m)
    ensures Operators(result, |result|) == m.Keys
  {}

  lemma {:induction false} KeysAreOperators(candidates: seq<Candidate>, list: ProbationList, n: nat)
    requires n <= |candidates| && list.intensityRate <= 100
    ensures ByOperatorTo(candidates, list, n).Keys == Operators(candidates, n)
  {
    hide Filtered;
    if n > 0 {
      KeysAreOperators(candidates, list, n - 1);
      assert Operators(candidates, n) == Operators(candidates, n - 1) + {candidates[n - 1].operatorAddress};
    }
  }

  lemma {:induction false} CountedDistinct(candidates: seq<Candidate>, n: nat)
    requires n <= |candidates|
    ensures |Operators(candidates, n)| <= n
    ensures |Operators(candidates, n)| == n
            ==> forall i, j :: 0 <= i < j < n ==> candidates[i].operatorAddress != candidates[j].operatorAddress
  {
    if n > 0 {
      CountedDistinct(candidates, n - 1);
      assert Operators(candidates, n) == Operators(candidates, n - 1) + {candidates[n - 1].operatorAddress};
    }
  }

  /** The filter loses candidates exactly when two of them share an operator. */
  lemma FilterKeepsAllIff(result: seq<Candidate>, candidates: seq<Candidate>, list: ProbationList)
    requires list.intensityRate <= 100 && SortedFrom(result, ByOperator(candidates, list))
    ensures |result| == |candidates| <==> UniqueOperators(candidates)
  {
    KeysAreOperators(candidates, list, |candidates|);
    CountedDistinct(candidates, |candidates|);
    hide ByOperatorTo;
    SameOperators(result, ByOperator(candidates, list));
    DistinctCount(result, |result|);
    if UniqueOperators(candidates) { DistinctCount(candidates, |candidates|); }
  }

  /** Two candidates with one operator: only the later one survives. */
  lemma SharedOperatorLosesCandidate(a: Candidate, b: Candidate, list: ProbationList, result: seq<Candidate>)
    requires a.operatorAddress == b.operatorAddress && list.intensityRate <= 100
    requires SortedFrom(result, ByOperator([a, b], list))
    ensures |result| == 1 && result[0] == Filtered(b, list)
  {
    var m := ByOperator([a, b], list);
    assert ByOperatorTo([a, b], list, 1) == map[a.operatorAddress := Filtered(a, list)];
    assert m == map[b.operatorAddress := Filtered(b, list)];
    assert b.operatorAddress in m;
    DistinctCount(result, |result|);
    assert Operators(result, |result|) == {b.operatorAddress};
  }

  /* ---------- the owner-keyed map ---------- */

  /** One row of the probation table. */
  datatype LocalEntry = LocalEntry(intensityRate: nat, address: Str, count: nat)

  /** convertProbationListToLocal; None stands for a nil list. */
  method ConvertProbationListToLocal(list: Option<ProbationList>) returns (ret: Option<seq<LocalEntry>>)
    ensures ret.None? <==> list.None?
    ensures list.Some? ==> |ret.value| == |list.value.entries|
    ensures list.Some? ==> forall i :: 0 <= i < |ret.value| ==>
              ret.value[i]
                == LocalEntry(list.value.intensityRate, list.value.entries[i].address, list.value.entries[i].count)
  {
    if list.None? { return None; }
    var local: seq<LocalEntry> := [];
    for i := 0 to |list.value.entries|
      invariant |local| == i
      invariant forall j :: 0 <= j < i ==>
        local[j] == LocalEntry(list.value.intensityRate, list.value.entries[j].address, list.value.entries[j].count)
    {
      local :=
        local + [LocalEntry(list.value.intensityRate, list.value.entries[i].address, list.value.entries[i].count)];
    }
    ret := Some(local);
  }

  /** An owner is penalised when an operator of one of its candidates is listed. */
  ghost predicate OwnerListed(candidates: seq<Candidate>, local: seq<LocalEntry>, owner: Str) {
    exists i, j :: 0 <= i < |candidates| && 0 <= j < |local|
                   && candidates[i].ownerAddress == owner && local[j].address == candidates[i].operatorAddress
  }

  /** stakingProbationListToMap: the rate in hundredths, and the penalised owners. The rate stays 0 unless some
      candidate is compared with some entry; whenever an owner is penalised it is 100 - intensity. */
  method StakingProbationListToMap(candidates: seq<Candidate>, local: Option<seq<LocalEntry>>)
    returns (rate: nat, owners: set<Str>)
    requires local.Some? ==> forall j :: 0 <= j < |local.value| ==> local.value[j].intensityRate <= 100
    ensures local.None? ==> owners == {}
    ensures local.Some? ==> forall owner :: owner in owners <==> OwnerListed(candidates, local.value, owner)
    ensures local.Some? && owners != {}
            ==> |local.value| > 0 && rate == 100 - local.value[|local.value| - 1].intensityRate
  {
    rate, owners := 0, {};
    if local.None? { return; }
    var entries := local.value;
    for i := 0 to |candidates|
      invariant forall owner :: owner in owners <==> OwnerListed(candidates[..i], entries, owner)
      invariant |entries| > 0 && i > 0 ==> rate == 100 - entries[|entries| - 1].intensityRate
      invariant |entries| == 0 ==> owners == {}
    {
      ghost var before := owners;
      for j := 0 to |entries|
        invariant owners == before + if exists k :: 0 <= k < j && entries[k].address == candidates[i].operatorAddress
                                     then {candidates[i].ownerAddress} else {}
        invariant j > 0 ==> rate == 100 - entries[j - 1].intensityRate
        invariant |entries| > 0 && i > 0 && j == 0 ==> rate == 100 - entries[|entries| - 1].intensityRate
      {
        rate := 100 - entries[j].intensityRate;
        if entries[j].address == candidates[i].operatorAddress {
          owners := owners + {candidates[i].ownerAddress};
        }
      }
      forall owner
        ensures OwnerListed(candidates[..i + 1], entries, owner)
           <==> OwnerListed(candidates[..i], entries, owner)
                || (owner == candidates[i].ownerAddress
                    && exists k :: 0 <= k < |entries| && entries[k].address == candidates[i].operatorAddress)
      {
        OneMoreCandidate(candidates, entries, i, owner);
      }
    }
    assert candidates[..|candidates|] == candidates;
  }

  lemma OneMoreCandidate(candidates: seq<Candidate>, local: seq<LocalEntry>, i: nat, owner: Str)
    requires i < |candidates|
    ensures OwnerListed(candidates[..i + 1], local, owner)
       <==> OwnerListed(candidates[..i], local, owner)
            || (owner == candidates[i].ownerAddress
                && exists k :: 0 <= k < |local| && local[k].address == candidates[i].operatorAddress)
  {}

  /** With unique owners the filter and the owner-keyed map penalise the same candidates. */
  lemma SamePenalised(candidates: seq<Candidate>, list: ProbationList, local: seq<LocalEntry>, i: nat)
    requires UniqueOwners(candidates) && i < |candidates|
    requires |local| == |list.entries| && forall j :: 0 <= j < |local| ==> local[j].address == list.entries[j].address
    ensures OwnerListed(candidates, local, candidates[i].ownerAddress)
            <==> candidates[i].operatorAddress in Listed(list)
  {}

  /** Candidates of one owner have one operator. */
  ghost predicate OwnersHaveOneOperator(candidates: seq<Candidate>) {
    forall i, j ::
      0 <= i < |candidates| && 0 <= j < |candidates| && candidates[i].ownerAddress == candidates[j].ownerAddress ==>
        candidates[i].operatorAddress == candidates[j].operatorAddress
  }

  /** The owner-keyed map penalises exactly the candidates whose operator is listed. */
  ghost predicate MapAgrees(candidates: seq<Candidate>, local: seq<LocalEntry>) {
    forall i :: 0 <= i < |candidates| ==>
      (OwnerListed(candidates, local, candidates[i].ownerAddress)
       <==> exists j :: 0 <= j < |local| && local[j].address == candidates[i].operatorAddress)
  }

  /** The filter by operator and the map by owner agree, whatever is listed, exactly when no owner has
      candidates with different operators. */
  lemma SamePenalisedIff(candidates: seq<Candidate>)
    ensures OwnersHaveOneOperator(candidates) <==> forall local :: MapAgrees(candidates, local)
  {
    if OwnersHaveOneOperator(candidates) {
      forall local ensures MapAgrees(candidates, local) {}
    } else {
      var i, j :| 0 <= i < |candidates| && 0 <= j < |candidates|
          && candidates[i].ownerAddress == candidates[j].ownerAddress
                  && candidates[i].operatorAddress != candidates[j].operatorAddress;
      var local := [LocalEntry(0, candidates[j].operatorAddress, 0)];
      assert local[0].address == candidates[j].operatorAddress;
      assert OwnerListed(candidates, local, candidates[i].ownerAddress);
      assert !MapAgrees(candidates, local);
    }
  }
}
