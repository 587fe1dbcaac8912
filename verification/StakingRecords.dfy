/** What a staking epoch stores and what its query returns, written out (indexprotocol/votings/stakingprotocol.go):
    every column of a voting_result row, and every weight bucket by bucket. */
module StakingRecords {
  import opened Bytes
  import opened Wrappers
  import opened Schema
  import opened Sql
  import opened EpochContext
  import opened DelegateName
  import opened Paging
  import opened Probation
  import opened PortionHistory
  import opened Aggregation
  import opened Votings
  import opened VotingViews

  /** The candidate's operator is on the probation list. */
  predicate OnList(list: Option<ProbationList>, c: Candidate) {
    list.Some? && exists j :: 0 <= j < |list.value.entries| && list.value.entries[j].address == c.operatorAddress
  }

  lemma ListedIffOnList(list: Option<ProbationList>, c: Candidate)
    ensures Penalises(list, c) <==> OnList(list, c)
  {}

  /* ---------- the columns of voting_result ---------- */

  /** The row is the candidate's, column by column. */
  ghost predicate Describes(row: VotingRow, cfg: Config, chain: Chain, e: nat, c: Candidate)
    requires cfg.epochCtx.Divisors()
  {
    var list, owner := chain.probation(e), c.ownerAddress;
    && row.epoch == e && Encoded(c.name) == Success(row.delegateName)
    && row.operatorAddress == c.operatorAddress && row.rewardAddress == c.rewardAddress
    && row.stakingAddress == owner
    && row.totalWeightedVotes == (if OnList(list, c) then c.totalWeightedVotes * (100 - list.value.intensityRate) / 100
                                  else c.totalWeightedVotes)
    && row.portions.blockReward == Carried(cfg, chain, e, BlockPortion, owner)
    && row.portions.epochReward == Carried(cfg, chain, e, EpochPortion, owner)
    && row.portions.foundation == Carried(cfg, chain, e, FoundationPortion, owner)
  }

  lemma RowDescribes(cfg: Config, chain: Chain, e: nat, c: Candidate)
    requires cfg.epochCtx.Divisors() && RateFits(chain.probation(e)) && Encoded(c.name).Success?
    ensures Describes(RowOfCandidate(cfg, chain, e, c), cfg, chain, e, c)
  {
    ListedIffOnList(chain.probation(e), c);
    hide Encoded, Carried, Listed, OnList;
  }

  /** Some row of the table is the candidate's. */
  ghost predicate HasRow(rows: seq<VotingRow>, cfg: Config, chain: Chain, e: nat, c: Candidate)
    requires cfg.epochCtx.Divisors()
  {
    exists row :: row in rows && Describes(row, cfg, chain, e, c)
  }

  /** voting_result has for a stored epoch a row for every candidate, and no other row. */
  lemma RowByColumn(cfg: Config, chain: Chain, t: VotingsTables, e: nat)
    requires cfg.epochCtx.Divisors() && e > 0 && RateFits(chain.probation(e)) && EpochRight(cfg, chain, t, e)
    ensures var candidates := CandidatesAt(cfg, chain, e);
            && (forall i :: 0 <= i < |candidates| ==> HasRow(t.result, cfg, chain, e, candidates[i]))
            && (forall row :: row in t.result && row.epoch == e
                              ==> exists i :: 0 <= i < |candidates| && Describes(row, cfg, chain, e, candidates[i]))
  {
    var candidates := CandidatesAt(cfg, chain, e);
    hide RowOfCandidate, CandidatesAt, BucketsAt, AllAggregatesRight, ProbationRight, Describes, RateFits, Encoded;
    forall i | 0 <= i < |candidates|
      ensures Describes(RowOfCandidate(cfg, chain, e, candidates[i]), cfg, chain, e, candidates[i])
      ensures HasRow(t.result, cfg, chain, e, candidates[i])
    {
      RowDescribes(cfg, chain, e, candidates[i]);
    }
  }

  /* ---------- the votes, bucket by bucket ---------- */

  /** Some candidate stakes for itself with the bucket. */
  predicate StakesItself(candidates: seq<Candidate>, b: Bucket) {
    exists i :: 0 <= i < |candidates| && candidates[i].selfStakeBucketIdx == b.index
  }

  /** The weight of the bucket at a position. */
  function WeightAt(chain: Chain, candidates: seq<Candidate>, buckets: seq<Bucket>): nat -> int {
    (j: nat) => if j < |buckets| then chain.bucketWeight(buckets[j], StakesItself(candidates, buckets[j])) else 0
  }

  lemma WeightIsAt(chain: Chain, candidates: seq<Candidate>, buckets: seq<Bucket>, j: nat)
    requires j < |buckets|
    ensures Weight(chain, SelfStakes(candidates), buckets[j]) == WeightAt(chain, candidates, buckets)(j)
  {
    var b := buckets[j];
    assert b.index in SelfStakes(candidates) <==> StakesItself(candidates, b);
  }

  /** Which of the first n buckets a voter staked for a candidate. */
  function BucketsFor(buckets: seq<Bucket>, owner: Str, voter: Str, n: nat): set<nat>
    requires n <= |buckets|
  {
    set j: nat | j < n && buckets[j].candidateAddress == owner && buckets[j].owner == voter
  }

  lemma OneMoreFor(buckets: seq<Bucket>, owner: Str, voter: Str, n: nat)
    requires 0 < n <= |buckets|
    ensures var before := BucketsFor(buckets, owner, voter, n - 1);
            && n - 1 !in before
            && BucketsFor(buckets, owner, voter, n)
               == if Backs(buckets[n - 1], owner, voter) then before + {n - 1} else before
  {}

  lemma OneMoreWeight(chain: Chain, selfStakes: set<nat>, buckets: seq<Bucket>, owner: Str, voter: Str, n: nat)
    requires 0 < n <= |buckets|
    ensures WeightTo(chain, selfStakes, buckets, owner, voter, n)
            == WeightTo(chain, selfStakes, buckets, owner, voter, n - 1)
               + if Backs(buckets[n - 1], owner, voter) then Weight(chain, selfStakes, buckets[n - 1]) else 0
    ensures CountTo(buckets, owner, voter, n)
            == CountTo(buckets, owner, voter, n - 1) + if Backs(buckets[n - 1], owner, voter) then 1 else 0
  {
    hide Backs, Weight;
  }

  lemma NoBuckets(chain: Chain, selfStakes: set<nat>, buckets: seq<Bucket>, owner: Str, voter: Str, f: nat -> int)
    ensures WeightTo(chain, selfStakes, buckets, owner, voter, 0) == 0 && CountTo(buckets, owner, voter, 0) == 0
    ensures BucketsFor(buckets, owner, voter, 0) == {} && SumSet(BucketsFor(buckets, owner, voter, 0), f) == 0
  {}

  lemma {:induction false} WeightsAre(chain: Chain, selfStakes: set<nat>, buckets: seq<Bucket>, owner: Str, voter: Str,
                                      f: nat -> int, n: nat)
    requires n <= |buckets| && forall j: nat :: j < |buckets| ==> f(j) == Weight(chain, selfStakes, buckets[j])
    ensures WeightTo(chain, selfStakes, buckets, owner, voter, n) == SumSet(BucketsFor(buckets, owner, voter, n), f)
    ensures CountTo(buckets, owner, voter, n) == |BucketsFor(buckets, owner, voter, n)|
  {
    hide *;
    if n == 0 {
      NoBuckets(chain, selfStakes, buckets, owner, voter, f);
    } else {
      WeightsAre(chain, selfStakes, buckets, owner, voter, f, n - 1);
      OneMoreFor(buckets, owner, voter, n);
      OneMoreWeight(chain, selfStakes, buckets, owner, voter, n);
      SumSetAdd<nat>(BucketsFor(buckets, owner, voter, n - 1), f, n - 1);
    }
  }

  lemma WeightsAddUp(chain: Chain, candidates: seq<Candidate>, buckets: seq<Bucket>, owner: Str, voter: Str)
    ensures WeightTo(chain, SelfStakes(candidates), buckets, owner, voter, |buckets|)
            == SumSet(BucketsFor(buckets, owner, voter, |buckets|), WeightAt(chain, candidates, buckets))
    ensures CountTo(buckets, owner, voter, |buckets|) == |BucketsFor(buckets, owner, voter, |buckets|)|
  {
    var f := WeightAt(chain, candidates, buckets);
    hide *;
    forall j: nat | j < |buckets| ensures f(j) == Weight(chain, SelfStakes(candidates), buckets[j]) {
      WeightIsAt(chain, candidates, buckets, j);
    }
    WeightsAre(chain, SelfStakes(candidates), buckets, owner, voter, f, |buckets|);
  }

  /** aggregate_voting has for a stored epoch a row for candidate i and a voter exactly when the voter has a bucket for
      the
      candidate. It holds the sum of the weights of these buckets, each counted as a self-stake if some candidate stakes
      for itself with it, and reduced by the rate of the probation list if the candidate's operator is on it. */
  lemma AggregateByBucket(cfg: Config, chain: Chain, t: VotingsTables, e: nat, i: nat, voter: Str)
    requires cfg.epochCtx.Divisors() && e > 0 && RateFits(chain.probation(e)) && EpochRight(cfg, chain, t, e)
    requires i < |CandidatesAt(cfg, chain, e)|
    ensures Encoded(CandidatesAt(cfg, chain, e)[i].name).Success?
    ensures var candidates, buckets, list := CandidatesAt(cfg, chain, e), BucketsAt(cfg, chain, e), chain.probation(e);
            var c := candidates[i];
            var mine := BucketsFor(buckets, c.ownerAddress, voter, |buckets|);
            var total := SumSet(mine, WeightAt(chain, candidates, buckets));
            var k := AggregateKey(e, Encoded(c.name).value, voter);
            && (k in t.aggregate <==> mine != {})
            && (k in t.aggregate ==>
                  t.aggregate[k] == if OnList(list, c) then total * (100 - list.value.intensityRate) / 100 else total)
  {
    var candidates, buckets, list := CandidatesAt(cfg, chain, e), BucketsAt(cfg, chain, e), chain.probation(e);
    assert NamesRight(candidates) && AggregateRight(t.aggregate, chain, candidates, buckets, list, e, i, voter) by {
      hide CandidatesAt, BucketsAt, AggregateRight, RowsRight, ProbationRight, NamesRight;
    }
    hide CandidatesAt, BucketsAt, EpochRight, SumSet, WeightTo, CountTo, Encoded, WeightAt, BucketsFor, SelfStakes;
    WeightsAddUp(chain, candidates, buckets, candidates[i].ownerAddress, voter);
    ListedIffOnList(list, candidates[i]);
    hide OnList, Listed;
  }

  /* ---------- the query, bucket by bucket ---------- */

  /** The bucket is staked for the candidate. */
  predicate StakedFor(b: Bucket, owner: Str) {
    b.unstakeStartTime <= b.stakeStartTime && b.candidateAddress == owner
  }

  /** Positions below n, in increasing order, of all buckets staked for a candidate. */
  ghost predicate PositionsOf(ps: seq<nat>, buckets: seq<Bucket>, owner: Str, n: nat)
    requires n <= |buckets|
  {
    PositionsKept(ps, buckets, (b: Bucket) => StakedFor(b, owner), n)
  }

  /** A weight reduced by a rate in hundredths. */
  function Reduced(weight: int, reduce: bool, rate: nat): int {
    if reduce then weight * rate / 100 else weight
  }

  lemma OneMorePosition(ps: seq<nat>, buckets: seq<Bucket>, owner: Str, n: nat)
    requires 0 < n <= |buckets| && PositionsOf(ps, buckets, owner, n - 1)
    ensures PositionsOf(if StakedFor(buckets[n - 1], owner) then ps + [n - 1] else ps, buckets, owner, n)
  {
    hide StakedFor, PositionsKept;
    OneMoreKept(ps, buckets, (b: Bucket) => StakedFor(b, owner), n);
  }

  lemma OneMoreInfoOf(chain: Chain, selfStakes: set<nat>, buckets: seq<Bucket>, owner: Str, rate: nat,
                      penalised: set<Str>, n: nat)
    requires 0 < n <= |buckets|
    ensures InfosTo(chain, selfStakes, buckets, owner, rate, penalised, n)
            == InfosTo(chain, selfStakes, buckets, owner, rate, penalised, n - 1)
               + if StakedFor(buckets[n - 1], owner)
                 then [VotingInfo(buckets[n - 1].owner,
                                  Reduced(Weight(chain, selfStakes, buckets[n - 1]), owner in penalised, rate))]
                 else []
  {
    hide Weight;
  }

  lemma NoInfos(chain: Chain, selfStakes: set<nat>, buckets: seq<Bucket>, owner: Str, rate: nat, penalised: set<Str>,
                f: nat -> int)
    ensures PositionsOf([], buckets, owner, 0)
    ensures InfosAt(InfosTo(chain, selfStakes, buckets, owner, rate, penalised, 0), [], buckets, owner in penalised,
                    rate, f)
  {}

  /** The query returns one info for each bucket staked for the candidate, in their order. */
  lemma {:induction false} InfosByBucket(chain: Chain, selfStakes: set<nat>, buckets: seq<Bucket>, owner: Str,
                                         rate: nat, penalised: set<Str>, f: nat -> int, n: nat)
    returns (ps: seq<nat>)
    requires n <= |buckets| && forall j: nat :: j < |buckets| ==> f(j) == Weight(chain, selfStakes, buckets[j])
    ensures PositionsOf(ps, buckets, owner, n)
    ensures InfosAt(InfosTo(chain, selfStakes, buckets, owner, rate, penalised, n), ps, buckets, owner in penalised,
                    rate,
                    f)
  {
    hide *;
    if n == 0 {
      ps := [];
      NoInfos(chain, selfStakes, buckets, owner, rate, penalised, f);
    } else {
      ps := InfosByBucket(chain, selfStakes, buckets, owner, rate, penalised, f, n - 1);
      var before := InfosTo(chain, selfStakes, buckets, owner, rate, penalised, n - 1);
      OneMorePosition(ps, buckets, owner, n);
      OneMoreInfoOf(chain, selfStakes, buckets, owner, rate, penalised, n);
      InfosAtMore(before, ps, buckets, owner in penalised, rate, f, n - 1);
      assert before + [] == before;
      if StakedFor(buckets[n - 1], owner) { ps := ps + [n - 1]; }
    }
  }

  /** The infos are those of the buckets at the positions. */
  ghost predicate InfosAt(infos: seq<VotingInfo>, ps: seq<nat>, buckets: seq<Bucket>, reduce: bool, rate: nat,
                          f: nat -> int)
  {
    && |infos| == |ps|
    && forall k :: 0 <= k < |ps| ==>
         ps[k] < |buckets| && infos[k] == VotingInfo(buckets[ps[k]].owner, Reduced(f(ps[k]), reduce, rate))
  }

  lemma InfosAtMore(infos: seq<VotingInfo>, ps: seq<nat>, buckets: seq<Bucket>, reduce: bool, rate: nat, f: nat -> int,
                    j: nat)
    requires InfosAt(infos, ps, buckets, reduce, rate, f) && j < |buckets|
    ensures InfosAt(infos + [VotingInfo(buckets[j].owner, Reduced(f(j), reduce, rate))], ps + [j], buckets, reduce,
                    rate,
                    f)
  {
    hide Reduced;
  }

  /** What the query by candidate i's encoded name returns for a stored epoch: for every bucket staked for the
      candidate, in their order, its owner and its weight, counted as a self-stake if some candidate stakes for itself
      with it, and reduced if the candidate's operator is on the probation list. */
  lemma QueryByBucket(cfg: Config, chain: Chain, t: VotingsTables, e: nat, i: nat, rate: nat, penalised: set<Str>)
    returns (ps: seq<nat>)
    requires cfg.epochCtx.Divisors() && e > 0 && Sane(chain) && EpochRight(cfg, chain, t, e)
             && i < |CandidatesAt(cfg, chain, e)|
    requires PenalisedByTable(t, e, CandidatesAt(cfg, chain, e), rate, penalised)
    ensures PositionsOf(ps, BucketsAt(cfg, chain, e), CandidatesAt(cfg, chain, e)[i].ownerAddress,
                        |BucketsAt(cfg, chain, e)|)
    ensures var candidates, buckets, list := CandidatesAt(cfg, chain, e), BucketsAt(cfg, chain, e), chain.probation(e);
            var c := candidates[i];
            var infos := InfosTo(chain, SelfStakes(candidates), buckets, c.ownerAddress, rate, penalised, |buckets|);
            |infos| == |ps|
            && forall k :: 0 <= k < |ps| ==>
                 var weight := WeightAt(chain, candidates, buckets)(ps[k]);
                 && infos[k].voter == buckets[ps[k]].owner
                 && infos[k].weightedVotes
                    == if OnList(list, c) then weight * (100 - list.value.intensityRate) / 100 else weight
  {
    var candidates, buckets, list := CandidatesAt(cfg, chain, e), BucketsAt(cfg, chain, e), chain.probation(e);
    SaneAt(cfg, chain, e);
    hide CandidatesAt, BucketsAt, InfosTo, SelfStakes, WeightAt, PositionsOf, PenalisedByTable, ProbationRight, Sane,
         UniqueOwners, RowsRight, AllAggregatesRight, NamesRight, RawRight, OnList, Listed;
    forall j: nat | j < |buckets|
      ensures WeightAt(chain, candidates, buckets)(j) == Weight(chain, SelfStakes(candidates), buckets[j])
    {
      WeightIsAt(chain, candidates, buckets, j);
    }
    ps := InfosByBucket(chain, SelfStakes(candidates), buckets, candidates[i].ownerAddress, rate, penalised,
                        WeightAt(chain, candidates, buckets), |buckets|);
    TablePenalties(t, e, candidates, list, rate, penalised, i);
    ListedIffOnList(list, candidates[i]);
  }

  /* ---------- the raw records and the probation list ---------- */

  /** The raw records of a stored epoch, read at the start of the epoch before: all buckets that are not unstaked and
      all
      candidates whose self-stake is not "0", in their order. */
  lemma RawByPosition(cfg: Config, chain: Chain, t: VotingsTables, e: nat) returns (bs: seq<nat>, cs: seq<nat>)
    requires cfg.epochCtx.Divisors() && e > 0 && RateFits(chain.probation(e)) && EpochRight(cfg, chain, t, e)
    ensures var h, from := cfg.epochCtx.GetEpochHeight(e), cfg.epochCtx.GetEpochHeight(e - 1);
            var buckets, candidates := chain.buckets(from), chain.candidates(from);
            && h in t.buckets
               && PositionsKept(bs, buckets, (b: Bucket) => b.unstakeStartTime <= b.stakeStartTime, |buckets|)
            && TakenAt(t.buckets[h], buckets, bs)
            && h in t.candidates
            && PositionsKept(cs, candidates, (c: Candidate) => c.selfStakingTokens != [0x30], |candidates|)
            && TakenAt(t.candidates[h], candidates, cs)
  {
    hide EpochCtx.GetEpochHeight, RowsRight, NamesRight, AllAggregatesRight, ProbationRight;
    var from := cfg.epochCtx.GetEpochHeight(e - 1);
    bs := KeptByPosition(chain.buckets(from), Staked, |chain.buckets(from)|);
    cs := KeptByPosition(chain.candidates(from), SelfStaked, |chain.candidates(from)|);
  }

  lemma {:induction false} FirstCount(list: ProbationList, j: nat, n: nat)
    requires j < n <= |list.entries|
    requires forall i :: 0 <= i < j ==> list.entries[i].address != list.entries[j].address
    ensures FirstCountTo(list, list.entries[j].address, n) == Some(list.entries[j].count)
    decreases n
  {
    if j < n - 1 { FirstCount(list, j, n - 1); } else { NoCount(list, list.entries[j].address, j); }
  }

  lemma {:induction false} NoCount(list: ProbationList, a: Str, n: nat)
    requires n <= |list.entries| && forall i :: 0 <= i < n ==> list.entries[i].address != a
    ensures FirstCountTo(list, a, n) == None
  {
    if n > 0 { NoCount(list, a, n - 1); }
  }

  /** Entry j is the first with its address. */
  predicate FirstEntry(entries: seq<ProbationEntry>, j: nat)
    requires j < |entries|
  {
    forall i :: 0 <= i < j ==> entries[i].address != entries[j].address
  }

  /** probation_list has a row for every address on the list, with the list's rate and the count of the address's first
      entry, and no other row of the epoch. */
  lemma ProbationByEntry(t: map<(nat, Str), ProbationRow>, e: nat, list: Option<ProbationList>)
    requires ProbationRight(t, e, list)
    ensures list.None? ==> forall a :: (e, a) !in t
    ensures list.Some? ==>
              var entries, rate := list.value.entries, list.value.intensityRate;
              && (forall a :: (e, a) in t <==> exists j :: 0 <= j < |entries| && entries[j].address == a)
              && (forall j: nat :: j < |entries| && FirstEntry(entries, j)
                                   ==> t[(e, entries[j].address)] == ProbationRow(rate, entries[j].count))
  {
    if list.Some? {
      var entries, rate := list.value.entries, list.value.intensityRate;
      forall j: nat | j < |entries| && FirstEntry(entries, j)
        ensures (e, entries[j].address) in t && t[(e, entries[j].address)] == ProbationRow(rate, entries[j].count)
      {
        FirstCount(list.value, j, |entries|);
        hide FirstCountTo;
      }
    }
  }
}
