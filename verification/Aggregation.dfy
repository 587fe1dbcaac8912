/** The staking buckets summed by candidate and voter (indexprotocol/votings/stakingprotocol.go):
    aggregate_voting holds sums, while a query returns the buckets one by one. */
module Aggregation {
  import opened Bytes
  import opened Wrappers
  import opened Schema
  import opened DelegateName
  import opened Paging
  import opened Probation

  /** Owner address to encoded name over the first n candidates; None if a name cannot be encoded. */
  function OwnerNamesTo(candidates: seq<Candidate>, n: nat): Option<map<Str, Str>>
    requires n <= |candidates|
  {
    if n == 0 then Some(map[])
    else
      match OwnerNamesTo(candidates, n - 1)
      case None => None
      case Some(names) =>
        match Encoded(candidates[n - 1].name)
        case Failure(_) => None
        case Success(name) => Some(names[candidates[n - 1].ownerAddress := name])
  }

  lemma {:induction false} OwnerNamesStayMissing(candidates: seq<Candidate>, k: nat, n: nat)
    requires k <= n <= |candidates| && OwnerNamesTo(candidates, k).None?
    ensures OwnerNamesTo(candidates, n).None?
    decreases n - k
  {
    if k < n { OwnerNamesStayMissing(candidates, k + 1, n); }
  }

  /** ownerAddressToNameMap. */
  method OwnerAddressToNameMap(candidates: seq<Candidate>) returns (r: Result<map<Str, Str>>)
    ensures r.Success? ==> OwnerNamesTo(candidates, |candidates|) == Some(r.value)
    ensures r.Failure? ==> OwnerNamesTo(candidates, |candidates|).None?
  {
    var ret: map<Str, Str> := map[];
    for i := 0 to |candidates|
      invariant OwnerNamesTo(candidates, i) == Some(ret)
    {
      var name := EncodeDelegateName(candidates[i].name);
      if name.Failure? {
        OwnerNamesStayMissing(candidates, i + 1, |candidates|);
        return Failure(name.error);
      }
      ret := ret[candidates[i].ownerAddress := name.value];
    }
    r := Success(ret);
  }

  /** The buckets with which candidates stake for themselves. */
  function SelfStakes(candidates: seq<Candidate>): set<nat> {
    set i | 0 <= i < |candidates| :: candidates[i].selfStakeBucketIdx
  }

  /** selfStakeIndexMap. */
  method SelfStakeIndexMap(candidates: seq<Candidate>) returns (ret: set<nat>)
    ensures ret == SelfStakes(candidates)
  {
    ret := {};
    for i := 0 to |candidates|
      invariant ret == set j | 0 <= j < i :: candidates[j].selfStakeBucketIdx
    {
      ret := ret + {candidates[i].selfStakeBucketIdx};
    }
  }

  /* ---------- sums ---------- */

  /** CalculateVoteWeight of a bucket. */
  function Weight(chain: Chain, selfStakes: set<nat>, b: Bucket): nat {
    chain.bucketWeight(b, b.index in selfStakes)
  }

  predicate Backs(b: Bucket, owner: Str, voter: Str) {
    b.candidateAddress == owner && b.owner == voter
  }

  /** What the first n buckets of a voter weigh for a candidate, and how many they are. */
  function WeightTo(chain: Chain, selfStakes: set<nat>, buckets: seq<Bucket>, owner: Str, voter: Str, n: nat): nat
    requires n <= |buckets|
  {
    if n == 0 then 0
    else WeightTo(chain, selfStakes, buckets, owner, voter, n - 1)
         + if Backs(buckets[n - 1], owner, voter) then Weight(chain, selfStakes, buckets[n - 1]) else 0
  }

  function CountTo(buckets: seq<Bucket>, owner: Str, voter: Str, n: nat): nat
    requires n <= |buckets|
  {
    if n == 0 then 0
    else CountTo(buckets, owner, voter, n - 1) + if Backs(buckets[n - 1], owner, voter) then 1 else 0
  }

  lemma {:induction false} NoneWeighNothing(chain: Chain, selfStakes: set<nat>, buckets: seq<Bucket>, owner: Str,
                                            voter: Str, n: nat)
    requires n <= |buckets| && CountTo(buckets, owner, voter, n) == 0
    ensures WeightTo(chain, selfStakes, buckets, owner, voter, n) == 0
  {
    if n > 0 { NoneWeighNothing(chain, selfStakes, buckets, owner, voter, n - 1); }
  }

  /** The sums over the first n buckets: one entry for each known candidate and voter with a bucket. */
  ghost predicate SumsTo(sums: map<(Str, Str), int>, chain: Chain, selfStakes: set<nat>, buckets: seq<Bucket>,
                         owners: set<Str>, n: nat)
    requires n <= |buckets|
  {
    && (forall p :: p in sums <==> p.0 in owners && CountTo(buckets, p.0, p.1, n) > 0)
    && (forall p :: p in sums ==> sums[p] == WeightTo(chain, selfStakes, buckets, p.0, p.1, n))
  }

  method SumBuckets(chain: Chain, selfStakes: set<nat>, buckets: seq<Bucket>, owners: set<Str>)
    returns (sums: map<(Str, Str), int>)
    ensures SumsTo(sums, chain, selfStakes, buckets, owners, |buckets|)
  {
    sums := map[];
    for i := 0 to |buckets|
      invariant SumsTo(sums, chain, selfStakes, buckets, owners, i)
    {
      var vote := buckets[i];
      if vote.candidateAddress in owners {
        var key := (vote.candidateAddress, vote.owner);
        if key !in sums { NoneWeighNothing(chain, selfStakes, buckets, vote.candidateAddress, vote.owner, i); }
        sums :=
          sums[key := (if key in sums then sums[key] else 0) + chain.bucketWeight(vote, vote.index in selfStakes)];
      }
    }
  }

  /* ---------- the aggregate_voting table ---------- */

  function KeyOf(e: nat, names: map<Str, Str>, p: (Str, Str)): AggregateKey
    requires p.0 in names
  {
    AggregateKey(e, names[p.0], p.1)
  }

  /** The sum, scaled down if the owner is penalised; the rate is in hundredths. */
  function Scaled(sum: int, owner: Str, rate: nat, penalised: set<Str>): int {
    if owner in penalised then sum * rate / 100 else sum
  }

  /** INSERT IGNORE of the sums in `done`, in whatever order the map yields them. */
  ghost predicate Inserted(t: map<AggregateKey, int>, t': map<AggregateKey, int>, e: nat, names: map<Str, Str>,
                           sums: map<(Str, Str), int>, rate: nat, penalised: set<Str>, done: set<(Str, Str)>)
    requires done <= sums.Keys && forall p :: p in sums ==> p.0 in names
  {
    && (forall k :: k in t ==> k in t' && t'[k] == t[k])
    && (forall p :: p in done ==> KeyOf(e, names, p) in t')
    && (forall k :: k in t' && k !in t ==>
          exists p :: p in done && k == KeyOf(e, names, p) && t'[k] == Scaled(sums[p], p.0, rate, penalised))
  }

  method InsertAggregates(t: map<AggregateKey, int>, e: nat, names: map<Str, Str>, sums: map<(Str, Str), int>,
                          rate: nat, penalised: set<Str>)
    returns (t': map<AggregateKey, int>)
    requires forall p :: p in sums ==> p.0 in names
    ensures Inserted(t, t', e, names, sums, rate, penalised, sums.Keys)
  {
    t' := t;
    var rest := sums.Keys;
    while rest != {}
      invariant rest <= sums.Keys
      invariant Inserted(t, t', e, names, sums, rate, penalised, sums.Keys - rest)
      decreases rest
    {
      var p :| p in rest;
      var val := sums[p];
      if p.0 in penalised { val := val * rate / 100; }
      var key := KeyOf(e, names, p);
      ghost var t0, done := t', sums.Keys - rest;
      if key !in t' { t' := t'[key := val]; }
      rest := rest - {p};
      assert sums.Keys - rest == done + {p};
      OneMoreInserted(t, t0, t', e, names, sums, rate, penalised, done, p);
    }
    assert sums.Keys - rest == sums.Keys;
  }

  lemma OneMoreInserted(t: map<AggregateKey, int>, t0: map<AggregateKey, int>, t': map<AggregateKey, int>, e: nat,
                        names: map<Str, Str>, sums: map<(Str, Str), int>, rate: nat, penalised: set<Str>,
                        done: set<(Str, Str)>, p: (Str, Str))
    requires done <= sums.Keys && (forall q :: q in sums ==> q.0 in names) && p in sums
    requires Inserted(t, t0, e, names, sums, rate, penalised, done)
    requires t' == if KeyOf(e, names, p) in t0 then t0
                   else t0[KeyOf(e, names, p) := Scaled(sums[p], p.0, rate, penalised)]
    ensures Inserted(t, t', e, names, sums, rate, penalised, done + {p})
  {}

  /** No two owners share an encoded name. */
  ghost predicate NamesDiffer(names: map<Str, Str>) {
    forall a, b :: a in names && b in names && names[a] == names[b] ==> a == b
  }

  /** With different names and no rows of the epoch before, INSERT IGNORE drops nothing: the table holds for
      every sum exactly one row. */
  lemma NothingDropped(t: map<AggregateKey, int>, t': map<AggregateKey, int>, e: nat, names: map<Str, Str>,
                       sums: map<(Str, Str), int>, rate: nat, penalised: set<Str>, owner: Str, voter: Str)
    requires (forall p :: p in sums ==> p.0 in names) && NamesDiffer(names) && owner in names
    requires forall k :: k in t ==> k.epoch != e
    requires Inserted(t, t', e, names, sums, rate, penalised, sums.Keys)
    ensures var k := AggregateKey(e, names[owner], voter);
            && (k in t' <==> (owner, voter) in sums)
            && (k in t' ==> t'[k] == Scaled(sums[(owner, voter)], owner, rate, penalised))
  {}

  /** updateAggregateStaking, without the voting_meta row. */
  method UpdateAggregateStaking(t: map<AggregateKey, int>, chain: Chain, buckets: seq<Bucket>,
                                candidates: seq<Candidate>, e: nat, list: Option<ProbationList>)
    returns (outcome: Outcome, t': map<AggregateKey, int>,
             ghost names: map<Str, Str>, ghost sums: map<(Str, Str), int>, ghost rate: nat, ghost penalised: set<Str>)
    requires list.Some? ==> list.value.intensityRate <= 100
    ensures outcome.Fail? <==> OwnerNamesTo(candidates, |candidates|).None?
    ensures outcome.Pass? ==>
              && OwnerNamesTo(candidates, |candidates|) == Some(names)
              && SumsTo(sums, chain, SelfStakes(candidates), buckets, names.Keys, |buckets|)
              && PenalisedRight(candidates, list, rate, penalised)
              && Inserted(t, t', e, names, sums, rate, penalised, sums.Keys)
  {
    hide SumsTo, Inserted, OwnerListed, Listed, OwnerNamesTo;
    t', names, sums, rate, penalised := t, map[], map[], 0, {};
    var nameMap := OwnerAddressToNameMap(candidates);
    if nameMap.Failure? { outcome := Fail(nameMap.error); return; }
    var pb := ConvertProbationListToLocal(list);
    var intensityRate, probationMap := StakingProbationListToMap(candidates, pb);
    var selfStakeIndex := SelfStakeIndexMap(candidates);
    var sumOfWeightedVotes := SumBuckets(chain, selfStakeIndex, buckets, nameMap.value.Keys);
    SumsKnown(sumOfWeightedVotes, chain, selfStakeIndex, buckets, nameMap.value.Keys);
    t' := InsertAggregates(t, e, nameMap.value, sumOfWeightedVotes, intensityRate, probationMap);
    names, sums, rate, penalised := nameMap.value, sumOfWeightedVotes, intensityRate, probationMap;
    outcome := Pass;
    if list.Some? { SameListed(candidates, list.value, pb.value, probationMap); }
  }

  lemma SumsKnown(sums: map<(Str, Str), int>, chain: Chain, selfStakes: set<nat>, buckets: seq<Bucket>,
                  owners: set<Str>)
    requires SumsTo(sums, chain, selfStakes, buckets, owners, |buckets|)
    ensures forall p :: p in sums ==> p.0 in owners
  {}

  /** An owner is penalised when the operator of one of its candidates is on the list. */
  ghost predicate OwnerPenalised(candidates: seq<Candidate>, list: ProbationList, owner: Str) {
    exists i ::
      0 <= i < |candidates| && candidates[i].ownerAddress == owner && candidates[i].operatorAddress in Listed(list)
  }

  ghost predicate PenalisedRight(candidates: seq<Candidate>, list: Option<ProbationList>, rate: nat,
                                 penalised: set<Str>)
  {
    match list
    case None => penalised == {}
    case Some(l) =>
      && (forall owner :: owner in penalised <==> OwnerPenalised(candidates, l, owner))
      && (penalised != {} ==> rate == 100 - l.intensityRate as int)
  }

  lemma SameListed(candidates: seq<Candidate>, list: ProbationList, local: seq<LocalEntry>, penalised: set<Str>)
    requires |local| == |list.entries| && forall j :: 0 <= j < |local| ==> local[j].address == list.entries[j].address
    requires forall owner :: owner in penalised <==> OwnerListed(candidates, local, owner)
    ensures forall owner :: owner in penalised <==> OwnerPenalised(candidates, list, owner)
  {}

  /* ---------- the buckets one by one ---------- */

  datatype VotingInfo = VotingInfo(voter: Str, weightedVotes: int)

  /** The infos of the first n buckets of a candidate. */
  function InfosTo(chain: Chain, selfStakes: set<nat>, buckets: seq<Bucket>, owner: Str, rate: nat, penalised: set<Str>,
                   n: nat)
    : seq<VotingInfo>
    requires n <= |buckets|
  {
    if n == 0 then []
    else
      var b := buckets[n - 1];
      InfosTo(chain, selfStakes, buckets, owner, rate, penalised, n - 1)
      + if Staked(b) && b.candidateAddress == owner
        then [VotingInfo(b.owner, Scaled(Weight(chain, selfStakes, b), owner, rate, penalised))] else []
  }

  /** What a voter's infos add up to. */
  function VoterSumTo(infos: seq<VotingInfo>, voter: Str, n: nat): int
    requires n <= |infos|
  {
    if n == 0 then 0
    else VoterSumTo(infos, voter, n - 1) + if infos[n - 1].voter == voter then infos[n - 1].weightedVotes else 0
  }

  function VoterSum(infos: seq<VotingInfo>, voter: Str): int {
    VoterSumTo(infos, voter, |infos|)
  }

  lemma {:induction false} VoterSumOfPrefix(infos: seq<VotingInfo>, more: seq<VotingInfo>, voter: Str, n: nat)
    requires n <= |infos|
    ensures VoterSumTo(infos + more, voter, n) == VoterSumTo(infos, voter, n)
  {
    if n > 0 { VoterSumOfPrefix(infos, more, voter, n - 1); }
  }

  lemma OneMoreInfo(infos: seq<VotingInfo>, info: VotingInfo, voter: Str)
    ensures VoterSum(infos + [info], voter) == VoterSum(infos, voter) + if info.voter == voter then info.weightedVotes
            else 0
  {
    VoterSumOfPrefix(infos, [info], voter, |infos|);
  }

  lemma OneMoreBucket(chain: Chain, selfStakes: set<nat>, buckets: seq<Bucket>, owner: Str, voter: Str,
                      rate: nat, penalised: set<Str>, n: nat)
    requires 0 < n <= |buckets| && Staked(buckets[n - 1])
    ensures VoterSum(InfosTo(chain, selfStakes, buckets, owner, rate, penalised, n), voter)
            == VoterSum(InfosTo(chain, selfStakes, buckets, owner, rate, penalised, n - 1), voter)
               + if Backs(buckets[n - 1], owner, voter)
                 then Scaled(Weight(chain, selfStakes, buckets[n - 1]), owner, rate, penalised) else 0
  {
    var b := buckets[n - 1];
    var before := InfosTo(chain, selfStakes, buckets, owner, rate, penalised, n - 1);
    var info := VotingInfo(b.owner, Scaled(Weight(chain, selfStakes, b), owner, rate, penalised));
    hide Scaled, Weight, VoterSumTo, Staked;
    OneMoreInfo(before, info, voter);
    assert before + [] == before;
  }

  /** Truncating once for the sum against truncating for every bucket: without a penalty the two agree; with
      one the buckets fall short by less than their number. */
  lemma {:induction false} SummedAgainstBuckets(chain: Chain, selfStakes: set<nat>, buckets: seq<Bucket>, owner: Str,
                                                voter: Str, rate: nat, penalised: set<Str>, n: nat)
    requires n <= |buckets| && forall i :: 0 <= i < |buckets| ==> Staked(buckets[i])
    ensures var each := VoterSum(InfosTo(chain, selfStakes, buckets, owner, rate, penalised, n), voter);
            var total := WeightTo(chain, selfStakes, buckets, owner, voter, n);
            && (owner !in penalised ==> each == total)
            && (owner in penalised
                ==> 100 * each <= total * rate <= 100 * each + 99 * CountTo(buckets, owner, voter, n))
  {
    if n > 0 {
      SummedAgainstBuckets(chain, selfStakes, buckets, owner, voter, rate, penalised, n - 1);
      OneMoreBucket(chain, selfStakes, buckets, owner, voter, rate, penalised, n);
      hide InfosTo, Weight, VoterSum, Staked;
      Distribute(WeightTo(chain, selfStakes, buckets, owner, voter, n - 1), Weight(chain, selfStakes, buckets[n - 1]),
                 rate);
    }
  }

  lemma Distribute(a: int, b: int, rate: int)
    ensures (a + b) * rate == a * rate + b * rate
    ensures 100 * (b * rate / 100) <= b * rate <= 100 * (b * rate / 100) + 99
  {}

  /** A voter has an info exactly when it has a bucket. */
  lemma {:induction false} InfoForEveryBucket(chain: Chain, selfStakes: set<nat>, buckets: seq<Bucket>, owner: Str,
                                              voter: Str, rate: nat, penalised: set<Str>, n: nat)
    requires n <= |buckets| && forall i :: 0 <= i < |buckets| ==> Staked(buckets[i])
    ensures CountTo(buckets, owner, voter, n) > 0
       <==> exists i :: 0 <= i < |InfosTo(chain, selfStakes, buckets, owner, rate, penalised, n)|
                        && InfosTo(chain, selfStakes, buckets, owner, rate, penalised, n)[i].voter == voter
  {
    if n > 0 {
      InfoForEveryBucket(chain, selfStakes, buckets, owner, voter, rate, penalised, n - 1);
      var before := InfosTo(chain, selfStakes, buckets, owner, rate, penalised, n - 1);
      var after := InfosTo(chain, selfStakes, buckets, owner, rate, penalised, n);
      if i :| 0 <= i < |before| && before[i].voter == voter { assert after[i] == before[i]; }
      if Backs(buckets[n - 1], owner, voter) { assert after[|before|].voter == voter; }
    }
  }

  /** The candidate address that a query by encoded name uses: that of the first candidate with the name, or
      none; it fails at a name that cannot be encoded. */
  function AddressFrom(candidates: seq<Candidate>, name: Str, i: nat): Result<Str>
    requires i <= |candidates|
    decreases |candidates| - i
  {
    if i == |candidates| then Success([])
    else
      match Encoded(candidates[i].name)
      case Failure(error) => Failure(error)
      case Success(encoded) =>
        if encoded == name then Success(candidates[i].ownerAddress) else AddressFrom(candidates, name, i + 1)
  }

  /** The probation rows of an epoch; None if there are none. The database may return them in any order. */
  ghost predicate RowsOfEpoch(rows: Option<seq<LocalEntry>>, t: map<(nat, Str), ProbationRow>, e: nat) {
    match rows
    case None => forall a :: (e, a) !in t
    case Some(entries) =>
      && (forall j :: 0 <= j < |entries| ==>
            (e, entries[j].address) in t && t[(e, entries[j].address)].intensityRate == entries[j].intensityRate)
      && (forall a :: (e, a) in t ==> exists j :: 0 <= j < |entries| && entries[j].address == a)
  }

  /** getProbationList. */
  method GetProbationList(t: map<(nat, Str), ProbationRow>, e: nat) returns (rows: Option<seq<LocalEntry>>)
    ensures RowsOfEpoch(rows, t, e)
  {
    var entries: seq<LocalEntry> := [];
    var rest := t.Keys;
    while rest != {}
      invariant rest <= t.Keys
      invariant forall j :: 0 <= j < |entries| ==>
        (e, entries[j].address) in t && t[(e, entries[j].address)].intensityRate == entries[j].intensityRate
      invariant forall a :: (e, a) in t && (e, a) !in rest ==> exists j :: 0 <= j < |entries| && entries[j].address == a
      decreases rest
    {
      var p :| p in rest;
      rest := rest - {p};
      if p.0 == e {
        ghost var before := entries;
        entries := entries + [LocalEntry(t[p].intensityRate, p.1, t[p].count)];
        forall a | (e, a) in t && (e, a) !in rest ensures exists j :: 0 <= j < |entries| && entries[j].address == a {
          if a == p.1 {
            assert entries[|before|].address == a;
          } else {
            var j :| 0 <= j < |before| && before[j].address == a;
            assert entries[j].address == a;
          }
        }
      }
    }
    rows := if entries == [] then None else Some(entries);
  }

  /** getStakingBucketInfoByEpoch. */
  method GetStakingBucketInfoByEpoch(t: VotingsTables, chain: Chain, height: nat, e: nat, name: Str)
    returns (r: Result<seq<VotingInfo>>, ghost rate: nat, ghost penalised: set<Str>)
    requires forall p :: p in t.probation ==> t.probation[p].intensityRate <= 100
    ensures height !in t.buckets || height !in t.candidates ==> r == Success([])
    ensures height in t.buckets && height in t.candidates ==>
              match AddressFrom(t.candidates[height], name, 0)
              case Failure(error) => r == Failure(error)
              case Success(address) =>
                && PenalisedByTable(t, e, t.candidates[height], rate, penalised)
                && r == Success(InfosTo(chain, SelfStakes(t.candidates[height]), t.buckets[height], address, rate,
                                        penalised,
                                        |t.buckets[height]|))
  {
    hide PenalisedByTable, SelfStakes, RowsOfEpoch, OwnerListed;
    rate, penalised := 0, {};
    if height !in t.buckets || height !in t.candidates { return Success([]), rate, penalised; }
    var bucketList, candidateList := t.buckets[height], t.candidates[height];
    var candidateAddress := FindCandidate(candidateList, name);
    if candidateAddress.Failure? { return Failure(candidateAddress.error), rate, penalised; }
    var pblist := GetProbationList(t.probation, e);
    RatesBounded(pblist, t.probation, e);
    var intensityRate, probationMap := StakingProbationListToMap(candidateList, pblist);
    PenaltiesOfTable(t, e, candidateList, pblist, intensityRate, probationMap);
    var selfStakeIndex := SelfStakeIndexMap(candidateList);
    var infos: seq<VotingInfo> := [];
    for i := 0 to |bucketList|
      invariant infos
                == InfosTo(chain, selfStakeIndex, bucketList, candidateAddress.value, intensityRate, probationMap, i)
    {
      var vote := bucketList[i];
      if vote.unstakeStartTime > vote.stakeStartTime { continue; }
      if vote.candidateAddress == candidateAddress.value {
        var weightedVotes: int := chain.bucketWeight(vote, vote.index in selfStakeIndex);
        if vote.candidateAddress in probationMap { weightedVotes := weightedVotes * intensityRate / 100; }
        infos := infos + [VotingInfo(vote.owner, weightedVotes)];
      }
    }
    rate, penalised := intensityRate, probationMap;
    r := Success(infos);
  }

  method FindCandidate(candidates: seq<Candidate>, name: Str) returns (r: Result<Str>)
    ensures r == AddressFrom(candidates, name, 0)
  {
    for i := 0 to |candidates|
      invariant AddressFrom(candidates, name, 0) == AddressFrom(candidates, name, i)
    {
      var encodedName := EncodeDelegateName(candidates[i].name);
      if encodedName.Failure? { return Failure(encodedName.error); }
      if encodedName.value == name { return Success(candidates[i].ownerAddress); }
    }
    r := Success([]);
  }

  lemma RatesBounded(rows: Option<seq<LocalEntry>>, t: map<(nat, Str), ProbationRow>, e: nat)
    requires RowsOfEpoch(rows, t, e) && forall p :: p in t ==> t[p].intensityRate <= 100
    ensures rows.Some? ==> forall j :: 0 <= j < |rows.value| ==> rows.value[j].intensityRate <= 100
  {}

  /** The penalties that the probation table gives rise to. */
  ghost predicate PenalisedByTable(t: VotingsTables, e: nat, candidates: seq<Candidate>, rate: nat, penalised: set<Str>)
  {
    && (forall owner :: owner in penalised <==>
          exists i ::
            0 <= i < |candidates| && candidates[i].ownerAddress == owner
              && (e, candidates[i].operatorAddress) in t.probation)
    && (penalised != {} ==> exists a :: (e, a) in t.probation && rate == 100 - t.probation[(e, a)].intensityRate as int)
  }

  lemma PenaltiesOfTable(t: VotingsTables, e: nat, candidates: seq<Candidate>, rows: Option<seq<LocalEntry>>, rate: nat,
                         owners: set<Str>)
    requires RowsOfEpoch(rows, t.probation, e)
    requires rows.None? ==> owners == {}
    requires rows.Some? ==> forall owner :: owner in owners <==> OwnerListed(candidates, rows.value, owner)
    requires rows.Some? && owners != {} ==>
               |rows.value| > 0 && rate == 100 - rows.value[|rows.value| - 1].intensityRate as int
    ensures PenalisedByTable(t, e, candidates, rate, owners)
  {}
}
