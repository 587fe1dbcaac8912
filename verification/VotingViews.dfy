/** What the voting tables hold throughout a run, and what a query over them returns. */
module VotingViews {
  import opened Bytes
  import opened Wrappers
  import opened Schema
  import opened EpochContext
  import opened DelegateName
  import opened Paging
  import opened Probation
  import opened RewardPortions
  import opened PortionHistory
  import opened Aggregation
  import opened Votings

  /* ---------- the contents of one staking epoch ---------- */

  function CandidatesAt(cfg: Config, chain: Chain, e: nat): seq<Candidate>
    requires cfg.epochCtx.Divisors() && e > 0
  {
    Kept(chain.candidates(cfg.epochCtx.GetEpochHeight(e - 1)), SelfStaked)
  }

  function BucketsAt(cfg: Config, chain: Chain, e: nat): seq<Bucket>
    requires cfg.epochCtx.Divisors() && e > 0
  {
    Kept(chain.buckets(cfg.epochCtx.GetEpochHeight(e - 1)), Staked)
  }

  function CarriedPortions(cfg: Config, chain: Chain, e: nat, a: Str): Portions
    requires cfg.epochCtx.Divisors()
  {
    Portions(Carried(cfg, chain, e, BlockPortion, a), Carried(cfg, chain, e, EpochPortion, a),
             Carried(cfg, chain, e, FoundationPortion, a))
  }

  function AfterFilter(c: Candidate, list: Option<ProbationList>): Candidate
    requires RateFits(list)
  {
    match list
    case None => c
    case Some(l) => Filtered(c, l)
  }

  predicate Penalises(list: Option<ProbationList>, c: Candidate) {
    list.Some? && c.operatorAddress in Listed(list.value)
  }

  /** The row of a candidate: its votes after the filter, and its portions carried up to the epoch. */
  function RowOfCandidate(cfg: Config, chain: Chain, e: nat, c: Candidate): VotingRow
    requires cfg.epochCtx.Divisors() && RateFits(chain.probation(e))
  {
    StakingRow(e, AfterFilter(c, chain.probation(e)), CarriedPortions(cfg, chain, e, c.ownerAddress))
  }

  /** voting_result holds one row for each candidate, and no other rows of the epoch. */
  ghost predicate RowsRight(rows: seq<VotingRow>, cfg: Config, chain: Chain, e: nat)
    requires cfg.epochCtx.Divisors() && e > 0 && RateFits(chain.probation(e))
  {
    var candidates := CandidatesAt(cfg, chain, e);
    && (forall i :: 0 <= i < |candidates| ==> RowOfCandidate(cfg, chain, e, candidates[i]) in rows)
    && (forall row :: row in rows && row.epoch == e ==>
          exists i :: 0 <= i < |candidates| && row == RowOfCandidate(cfg, chain, e, candidates[i]))
  }

  /** Names can be encoded, and no two are encoded alike. */
  ghost predicate NamesRight(candidates: seq<Candidate>) {
    && AllEncodable(candidates, |candidates|)
    && forall i, j :: 0 <= i < j < |candidates| ==> NameOr(candidates[i].name) != NameOr(candidates[j].name)
  }

  /** The aggregate_voting row of candidate i and a voter: the voter's buckets summed, scaled once. */
  ghost predicate AggregateRight(t: map<AggregateKey, int>, chain: Chain, candidates: seq<Candidate>,
                                 buckets: seq<Bucket>, list: Option<ProbationList>, e: nat, i: nat, voter: Str)
    requires i < |candidates| && RateFits(list)
  {
    var c := candidates[i];
    var k := AggregateKey(e, NameOr(c.name), voter);
    var total := WeightTo(chain, SelfStakes(candidates), buckets, c.ownerAddress, voter, |buckets|);
    && (k in t <==> CountTo(buckets, c.ownerAddress, voter, |buckets|) > 0)
    && (k in t ==> t[k] == if Penalises(list, c) then Penalised(total, list.value.intensityRate) else total)
  }

  ghost predicate AllAggregatesRight(t: map<AggregateKey, int>, chain: Chain, candidates: seq<Candidate>,
                                     buckets: seq<Bucket>, list: Option<ProbationList>, e: nat)
    requires RateFits(list)
  {
    && NoStrays(t, candidates, e)
    && forall i, voter :: 0 <= i < |candidates| ==> AggregateRight(t, chain, candidates, buckets, list, e, i, voter)
  }

  /** Every aggregate_voting row of the epoch is some candidate's. */
  ghost predicate NoStrays(t: map<AggregateKey, int>, candidates: seq<Candidate>, e: nat) {
    forall k ::
      k in t && k.epoch == e ==> exists i :: 0 <= i < |candidates| && k.candidateName == NameOr(candidates[i].name)
  }

  ghost predicate ProbationRight(t: map<(nat, Str), ProbationRow>, e: nat, list: Option<ProbationList>) {
    && (forall a :: (e, a) in t <==> list.Some? && a in Listed(list.value))
    && (forall a :: (e, a) in t ==>
          && t[(e, a)].intensityRate == list.value.intensityRate
          && FirstCountTo(list.value, a, |list.value.entries|) == Some(t[(e, a)].count))
  }

  ghost predicate RawRight(t: VotingsTables, h: nat, candidates: seq<Candidate>, buckets: seq<Bucket>) {
    h in t.buckets && t.buckets[h] == buckets && h in t.candidates && t.candidates[h] == candidates
  }

  ghost predicate EpochRight(cfg: Config, chain: Chain, t: VotingsTables, e: nat)
    requires cfg.epochCtx.Divisors() && e > 0 && RateFits(chain.probation(e))
  {
    && RawRight(t, cfg.epochCtx.GetEpochHeight(e), CandidatesAt(cfg, chain, e), BucketsAt(cfg, chain, e))
    && RowsRight(t.result, cfg, chain, e) && NamesRight(CandidatesAt(cfg, chain, e))
    && AllAggregatesRight(t.aggregate, chain, CandidatesAt(cfg, chain, e), BucketsAt(cfg, chain, e), chain.probation(e),
                          e)
    && ProbationRight(t.probation, e, chain.probation(e))
  }

  /** Before staking moved: voting_result holds the election result, and no other rows of the epoch. */
  ghost predicate ElectionRight(chain: Chain, t: VotingsTables, e: nat) {
    && (forall i :: 0 <= i < |chain.electionResult(e)| ==> chain.electionResult(e)[i].(epoch := e) in t.result)
    && (forall row :: row in t.result && row.epoch == e ==>
          exists i :: 0 <= i < |chain.electionResult(e)| && row == chain.electionResult(e)[i].(epoch := e))
    && ProbationRight(t.probation, e, chain.probation(e))
  }

  /* ---------- the run invariant ---------- */

  /** What the chain and the election service are relied on for. */
  ghost predicate Sane(chain: Chain) {
    && (forall e :: RateFits(chain.probation(e)))
    && (forall h :: CandidatesSane(Kept(chain.candidates(h), SelfStaked)))
    && (forall e :: VotesNotNegative(chain.electionResult(e)))
  }

  ghost predicate CandidatesSane(candidates: seq<Candidate>) {
    && UniqueOperators(candidates) && UniqueOwners(candidates)
    && forall i :: 0 <= i < |candidates| ==> candidates[i].totalWeightedVotes >= 0
  }

  ghost predicate VotesNotNegative(rows: seq<VotingRow>) {
    forall i :: 0 <= i < |rows| ==> rows[i].totalWeightedVotes >= 0
  }

  /** Nothing is stored for an epoch after `open`, and nothing for epoch 0. */
  ghost predicate Bounded(t: VotingsTables, open: nat) {
    && (forall row :: row in t.result ==> 1 <= row.epoch <= open)
    && (forall k :: k in t.aggregate ==> 1 <= k.epoch <= open)
    && (forall p :: p in t.probation ==> 1 <= p.0 <= open)
  }

  /** Every epoch that was opened is stored right. */
  ghost predicate Views(cfg: Config, chain: Chain, t: VotingsTables, open: nat)
    requires cfg.epochCtx.Divisors() && Sane(chain)
  {
    && Bounded(t, open) && UniqueRows(t.result) && VotesNotNegative(t.result)
    && (forall e :: 1 <= e <= open && cfg.rolldpos && StakingEpoch(cfg.epochCtx, e) ==> EpochRight(cfg, chain, t, e))
    && (forall e :: 1 <= e <= open && cfg.rolldpos && !StakingEpoch(cfg.epochCtx, e) ==> ElectionRight(chain, t, e))
  }

  /* ---------- carried portions ---------- */

  lemma {:induction false} StoredIsARow(rows: seq<VotingRow>, e: nat, a: Str, n: nat)
    requires n <= |rows|
    ensures match StoredTo(rows, e, a, n)
            case Some(q) => exists i ::
              0 <= i < n && rows[i].epoch == e && rows[i].stakingAddress == a && rows[i].portions == q
            case None => forall i :: 0 <= i < n && rows[i].epoch == e ==> rows[i].stakingAddress != a
  {
    if n > 0 { StoredIsARow(rows, e, a, n - 1); }
  }

  /** What the rows of an epoch say about an address is what was carried to that epoch. */
  lemma StoredIsCarried(cfg: Config, chain: Chain, rows: seq<VotingRow>, e: nat, a: Str)
    requires cfg.epochCtx.Divisors() && e > 0 && RateFits(chain.probation(e)) && RowsRight(rows, cfg, chain, e)
    ensures StoredIn(rows, e, a) == if a in Owners(cfg, chain, e) then Some(CarriedPortions(cfg, chain, e, a)) else None
  {
    hide Carried, Kept, EpochCtx.GetEpochHeight, RowOfCandidate;
    StoredIsARow(rows, e, a, |rows|);
    var candidates := CandidatesAt(cfg, chain, e);
    forall i | 0 <= i < |candidates|
      ensures var row := RowOfCandidate(cfg, chain, e, candidates[i]);
              && row.epoch == e && row.stakingAddress == candidates[i].ownerAddress
              && row.portions == CarriedPortions(cfg, chain, e, row.stakingAddress)
    {
      RowFields(cfg, chain, e, candidates[i]);
    }
  }

  lemma RowFields(cfg: Config, chain: Chain, e: nat, c: Candidate)
    requires cfg.epochCtx.Divisors() && RateFits(chain.probation(e))
    ensures var row := RowOfCandidate(cfg, chain, e, c);
            && row.epoch == e && row.stakingAddress == c.ownerAddress
            && row.portions == CarriedPortions(cfg, chain, e, row.stakingAddress)
            && (c.totalWeightedVotes >= 0 ==> row.totalWeightedVotes >= 0)
  {
    hide CarriedPortions, AfterFilter;
    FilterKeeps(c, chain.probation(e));
  }

  lemma {:induction false} NothingStored(rows: seq<VotingRow>, e: nat, a: Str, n: nat)
    requires n <= |rows| && forall i :: 0 <= i < |rows| ==> rows[i].epoch != e
    ensures StoredTo(rows, e, a, n).None?
  {
    if n > 0 { NothingStored(rows, e, a, n - 1); }
  }

  /** The step of the carry: overlaying the logs on the stored rows of the epoch before. */
  lemma CarryStep(cfg: Config, chain: Chain, rows: seq<VotingRow>, e: nat, p: Place, name: PortionName, a: Str)
    requires cfg.epochCtx.Divisors() && p.epoch == e > 0 && p.prevHeight == cfg.epochCtx.GetEpochHeight(e - 1)
    requires name != OtherProfile
    requires StoredIn(rows, e - 1, a)
             == if e > 1 && a in Owners(cfg, chain, e - 1) then Some(CarriedPortions(cfg, chain, e - 1, a)) else None
    ensures PortionFor(cfg, chain, cfg.epochCtx.GetEpochHeight(e), p.prevHeight, e, rows, name, a)
            == Carried(cfg, chain, e, name, a)
  {
    hide Last, StoredIn, Owners, EpochCtx.GetEpochHeight, EpochCtx.FairbankEffectiveHeight;
  }

  lemma PortionsAreCarried(cfg: Config, chain: Chain, rows: seq<VotingRow>, e: nat, p: Place, a: Str)
    requires cfg.epochCtx.Divisors() && p.epoch == e > 0 && p.prevHeight == cfg.epochCtx.GetEpochHeight(e - 1)
    requires forall row :: row in rows ==> row.epoch > 0
    requires forall n :: RateFits(chain.probation(n))
    requires InitEpoch(cfg.epochCtx, e) || e == 1 || RowsRight(rows, cfg, chain, e - 1)
    ensures PortionsFor(cfg, chain, cfg.epochCtx.GetEpochHeight(e), p, rows, a) == CarriedPortions(cfg, chain, e, a)
  {
    hide Last, StoredTo, Owners, EpochCtx.GetEpochHeight, EpochCtx.FairbankEffectiveHeight, RowsRight, PortionFor,
         Carried;
    if InitEpoch(cfg.epochCtx, e) {
      InitStep(cfg, chain, rows, e, p, a);
    } else {
      if e == 1 { NothingStored(rows, 0, a, |rows|); } else { StoredIsCarried(cfg, chain, rows, e - 1, a); }
      CarryStep(cfg, chain, rows, e, p, BlockPortion, a);
      CarryStep(cfg, chain, rows, e, p, EpochPortion, a);
      CarryStep(cfg, chain, rows, e, p, FoundationPortion, a);
    }
  }

  lemma InitStep(cfg: Config, chain: Chain, rows: seq<VotingRow>, e: nat, p: Place, a: Str)
    requires cfg.epochCtx.Divisors() && p.epoch == e > 0 && InitEpoch(cfg.epochCtx, e)
    ensures PortionsFor(cfg, chain, cfg.epochCtx.GetEpochHeight(e), p, rows, a) == CarriedPortions(cfg, chain, e, a)
  {
    hide Last, EpochCtx.GetEpochHeight, EpochCtx.FairbankEffectiveHeight;
  }

  /* ---------- the filtered candidates ---------- */

  /** The filtered list holds every candidate once, with its votes after the filter. */
  ghost predicate Covers(result: seq<Candidate>, candidates: seq<Candidate>, list: Option<ProbationList>)
    requires RateFits(list)
  {
    && UniqueOperators(result) && UniqueOwners(result)
    && (forall i :: 0 <= i < |candidates| ==> AfterFilter(candidates[i], list) in result)
    && (forall j ::
          0 <= j < |result| ==> exists i :: 0 <= i < |candidates| && result[j] == AfterFilter(candidates[i], list))
  }

  lemma FilterCovers(result: seq<Candidate>, candidates: seq<Candidate>, list: Option<ProbationList>)
    requires RateFits(list) && FilteredBy(result, candidates, list) && CandidatesSane(candidates)
    ensures Covers(result, candidates, list)
  {
    if list.Some? {
      FilterReorders(result, candidates, list.value);
      hide SortedFrom, ByOperator;
      var all := FilteredAll(candidates, list.value);
      forall i | 0 <= i < |candidates| ensures AfterFilter(candidates[i], list) in result {
        assert all[i] in all;
      }
      forall j | 0 <= j < |result|
        ensures exists i :: 0 <= i < |candidates| && result[j] == AfterFilter(candidates[i], list)
      {
        assert result[j] in all;
        var i :| 0 <= i < |all| && all[i] == result[j];
      }
      OwnersStayUnique(result, candidates, list);
    }
  }

  lemma OwnersStayUnique(result: seq<Candidate>, candidates: seq<Candidate>, list: Option<ProbationList>)
    requires RateFits(list) && UniqueOperators(result) && UniqueOwners(candidates)
    requires forall j ::
               0 <= j < |result| ==> exists i :: 0 <= i < |candidates| && result[j] == AfterFilter(candidates[i], list)
    ensures UniqueOwners(result)
  {}

  lemma FilterKeeps(c: Candidate, list: Option<ProbationList>)
    requires RateFits(list)
    ensures var d := AfterFilter(c, list);
            && d.name == c.name && d.ownerAddress == c.ownerAddress && d.operatorAddress == c.operatorAddress
            && d.rewardAddress == c.rewardAddress && d.selfStakeBucketIdx == c.selfStakeBucketIdx
            && (c.totalWeightedVotes >= 0 ==> d.totalWeightedVotes >= 0)
  {
    if list.Some? && c.totalWeightedVotes >= 0 { PenaltyLowers(c.totalWeightedVotes, list.value.intensityRate); }
  }

  lemma SameSelfStakes(result: seq<Candidate>, candidates: seq<Candidate>, list: Option<ProbationList>)
    requires RateFits(list) && Covers(result, candidates, list)
    ensures SelfStakes(result) == SelfStakes(candidates)
  {}

  lemma SamePenalties(result: seq<Candidate>, candidates: seq<Candidate>, list: ProbationList, i: nat)
    requires RateFits(Some(list)) && Covers(result, candidates, Some(list)) && UniqueOwners(candidates)
             && i < |candidates|
    ensures OwnerPenalised(result, list, candidates[i].ownerAddress) <==> candidates[i].operatorAddress in Listed(list)
  {}

  lemma NamesAreRight(t: seq<VotingRow>, rows: seq<VotingRow>, result: seq<Candidate>, candidates: seq<Candidate>,
                      list: Option<ProbationList>, e: nat)
    requires RateFits(list) && Covers(result, candidates, list) && UniqueOperators(candidates)
    requires AllEncodable(result, |result|) && UniqueRows(t + rows)
    requires |rows| == |result|
             && forall j :: 0 <= j < |rows| ==> rows[j].epoch == e && rows[j].delegateName == NameOr(result[j].name)
    ensures NamesRight(candidates) && NamesRight(result)
  {
    hide AfterFilter, NameOr, Encoded;
    forall x, y | 0 <= x < y < |result| ensures NameOr(result[x].name) != NameOr(result[y].name) {
      assert (t + rows)[|t| + x] == rows[x] && (t + rows)[|t| + y] == rows[y];
    }
    forall i | 0 <= i < |candidates| ensures Encoded(candidates[i].name).Success? {
      FilterKeeps(candidates[i], list);
      var j :| 0 <= j < |result| && result[j] == AfterFilter(candidates[i], list);
    }
    forall i, k | 0 <= i < k < |candidates| ensures NameOr(candidates[i].name) != NameOr(candidates[k].name) {
      FilterKeeps(candidates[i], list);
      FilterKeeps(candidates[k], list);
      var x :| 0 <= x < |result| && result[x] == AfterFilter(candidates[i], list);
      var y :| 0 <= y < |result| && result[y] == AfterFilter(candidates[k], list);
      assert x != y;
    }
  }

  /** The map from owners to names, when both are unique. */
  lemma {:induction false} NamesOfOwners(candidates: seq<Candidate>, n: nat)
    requires n <= |candidates| && UniqueOwners(candidates) && OwnerNamesTo(candidates, n).Some?
    ensures var names := OwnerNamesTo(candidates, n).value;
            && (forall i :: 0 <= i < n ==> candidates[i].ownerAddress in names
                                           && names[candidates[i].ownerAddress] == NameOr(candidates[i].name))
            && (forall a :: a in names ==> exists i :: 0 <= i < n && candidates[i].ownerAddress == a)
  {
    hide Encoded;
    if n > 0 { NamesOfOwners(candidates, n - 1); }
  }

  lemma NamesAreDifferent(candidates: seq<Candidate>, names: map<Str, Str>)
    requires UniqueOwners(candidates) && NamesRight(candidates) && OwnerNamesTo(candidates, |candidates|) == Some(names)
    ensures NamesDiffer(names)
  {
    hide Encoded, NameOr;
    NamesOfOwners(candidates, |candidates|);
    forall a, b | a in names && b in names && names[a] == names[b] ensures a == b {
      var i :| 0 <= i < |candidates| && candidates[i].ownerAddress == a;
      var j :| 0 <= j < |candidates| && candidates[j].ownerAddress == b;
    }
  }

  /* ---------- an epoch's first block ---------- */

  lemma NamedOwner(result: seq<Candidate>, candidates: seq<Candidate>, list: Option<ProbationList>,
                   names: map<Str, Str>, i: nat)
    requires RateFits(list) && Covers(result, candidates, list) && NamesRight(result) && i < |candidates|
    requires OwnerNamesTo(result, |result|) == Some(names)
    ensures candidates[i].ownerAddress in names && names[candidates[i].ownerAddress] == NameOr(candidates[i].name)
    ensures NamesDiffer(names)
  {
    hide NameOr, AfterFilter, OwnerNamesTo;
    NamesOfOwners(result, |result|);
    NamesAreDifferent(result, names);
    FilterKeeps(candidates[i], list);
    var j :| 0 <= j < |result| && result[j] == AfterFilter(candidates[i], list);
  }

  lemma ScaledRight(result: seq<Candidate>, candidates: seq<Candidate>, list: Option<ProbationList>, rate: nat,
                    penalised: set<Str>, i: nat, total: int)
    requires RateFits(list) && Covers(result, candidates, list) && UniqueOwners(candidates) && i < |candidates|
    requires PenalisedRight(result, list, rate, penalised)
    ensures Scaled(total, candidates[i].ownerAddress, rate, penalised)
            == if Penalises(list, candidates[i]) then Penalised(total, list.value.intensityRate) else total
  {
    if list.Some? { SamePenalties(result, candidates, list.value, i); }
    hide Covers, Listed, OwnerPenalised;
  }

  lemma AggregatesAreRight(t: map<AggregateKey, int>, t': map<AggregateKey, int>, chain: Chain, buckets: seq<Bucket>,
                           candidates: seq<Candidate>, list: Option<ProbationList>, e: nat, f: Filling, i: nat,
                           voter: Str)
    requires RateFits(list) && CandidatesSane(candidates) && i < |candidates|
    requires Covers(f.candidates, candidates, list) && NamesRight(f.candidates)
    requires (forall k :: k in t ==> k.epoch != e) && Aggregates(t, t', chain, buckets, e, list, f)
    ensures AggregateRight(t', chain, candidates, buckets, list, e, i, voter)
  {
    var c := candidates[i];
    var total := WeightTo(chain, SelfStakes(candidates), buckets, c.ownerAddress, voter, |buckets|);
    SaneIsUnique(candidates);
    hide Inserted, NameOr, OwnerNamesTo, WeightTo, CountTo, SelfStakes, Covers, NamesRight, PenalisedRight, Scaled,
         Penalises, Penalised, NamesDiffer;
    NamedOwner(f.candidates, candidates, list, f.names, i);
    SameSelfStakes(f.candidates, candidates, list);
    NothingDropped(t, t', e, f.names, f.sums, f.rate, f.penalised, c.ownerAddress, voter);
    ScaledRight(f.candidates, candidates, list, f.rate, f.penalised, i, total);
  }

  /** The row written for a filtered candidate is the one that the candidate is due. */
  lemma WrittenRowRight(cfg: Config, chain: Chain, p: Place, stored: seq<VotingRow>, c: Candidate)
    requires cfg.epochCtx.Divisors() && p.epoch > 0 && p.prevHeight == cfg.epochCtx.GetEpochHeight(p.epoch - 1)
    requires forall e :: RateFits(chain.probation(e))
    requires forall row :: row in stored ==> 0 < row.epoch
    requires InitEpoch(cfg.epochCtx, p.epoch) || p.epoch == 1 || RowsRight(stored, cfg, chain, p.epoch - 1)
    ensures var d := AfterFilter(c, chain.probation(p.epoch));
            StakingRow(p.epoch, d,
                       PortionsFor(cfg, chain, cfg.epochCtx.GetEpochHeight(p.epoch), p, stored, d.ownerAddress))
            == RowOfCandidate(cfg, chain, p.epoch, c)
  {
    hide RowsRight, PortionsFor, CarriedPortions, AfterFilter, InitEpoch, StakingRow, EpochCtx.GetEpochHeight;
    FilterKeeps(c, chain.probation(p.epoch));
    PortionsAreCarried(cfg, chain, stored, p.epoch, p, c.ownerAddress);
  }

  lemma RowsBecomeRight(cfg: Config, chain: Chain, p: Place, t: seq<VotingRow>, f: Filling)
    requires cfg.epochCtx.Divisors() && p.epoch > 0 && p.prevHeight == cfg.epochCtx.GetEpochHeight(p.epoch - 1)
    requires forall e :: RateFits(chain.probation(e))
    requires forall row :: row in t ==> 0 < row.epoch < p.epoch
    requires InitEpoch(cfg.epochCtx, p.epoch) || p.epoch == 1 || RowsRight(t, cfg, chain, p.epoch - 1)
    requires Covers(f.candidates, CandidatesAt(cfg, chain, p.epoch), chain.probation(p.epoch))
    requires StakingRows(f.rows, cfg, chain, cfg.epochCtx.GetEpochHeight(p.epoch), p, t, f.candidates, |f.candidates|)
    ensures RowsRight(t + f.rows, cfg, chain, p.epoch)
  {
    hide RowOfCandidate, AfterFilter, PortionsFor, InitEpoch, StakingRow, EpochCtx.GetEpochHeight, CandidatesAt,
         RateFits, UniqueOwners, UniqueOperators;
    var candidates, list := CandidatesAt(cfg, chain, p.epoch), chain.probation(p.epoch);
    forall i, j | 0 <= i < |candidates| && 0 <= j < |f.candidates|
        && f.candidates[j] == AfterFilter(candidates[i], list)
      ensures f.rows[j] == RowOfCandidate(cfg, chain, p.epoch, candidates[i])
    {
      hide Covers, RowsRight;
      WrittenRowRight(cfg, chain, p, t, candidates[i]);
    }
    RowsCover(t, f.rows, cfg, chain, p.epoch, f.candidates);
  }

  lemma RowsCover(t: seq<VotingRow>, rows: seq<VotingRow>, cfg: Config, chain: Chain, e: nat, result: seq<Candidate>)
    requires cfg.epochCtx.Divisors() && e > 0 && RateFits(chain.probation(e)) && |rows| == |result|
    requires forall row :: row in t ==> row.epoch != e
    requires Covers(result, CandidatesAt(cfg, chain, e), chain.probation(e))
    requires forall i, j :: 0 <= i < |CandidatesAt(cfg, chain, e)| && 0 <= j < |result|
               && result[j] == AfterFilter(CandidatesAt(cfg, chain, e)[i], chain.probation(e))
               ==> rows[j] == RowOfCandidate(cfg, chain, e, CandidatesAt(cfg, chain, e)[i])
    ensures RowsRight(t + rows, cfg, chain, e)
  {
    hide RowOfCandidate, AfterFilter, CandidatesAt, RateFits, UniqueOwners, UniqueOperators;
    var candidates, list := CandidatesAt(cfg, chain, e), chain.probation(e);
    forall i | 0 <= i < |candidates| ensures RowOfCandidate(cfg, chain, e, candidates[i]) in t + rows {
      var j :| 0 <= j < |result| && result[j] == AfterFilter(candidates[i], list);
      assert rows[j] in rows;
    }
    forall row | row in t + rows && row.epoch == e
      ensures exists i :: 0 <= i < |candidates| && row == RowOfCandidate(cfg, chain, e, candidates[i])
    {
      var j :| 0 <= j < |rows| && rows[j] == row;
      var i :| 0 <= i < |candidates| && result[j] == AfterFilter(candidates[i], list);
    }
  }

  lemma ProbationBecomesRight(t: map<(nat, Str), ProbationRow>, e: nat, list: Option<ProbationList>)
    requires forall p :: p in t ==> p.0 != e
    ensures ProbationRight(ProbationAfter(t, e, list), e, list)
  {
    if list.Some? {
      var l := list.value;
      ProbationRows(t, e, l, |l.entries|);
      hide ProbationTo;
      forall a ensures (e, a) in ProbationTo(t, e, l, |l.entries|) <==> a in Listed(l) {
        if a in Listed(l) { var j :| 0 <= j < |l.entries| && l.entries[j].address == a; }
      }
    }
  }

  /** The first block of a staking epoch stores the epoch right. */
  lemma EpochBecomesRight(cfg: Config, chain: Chain, p: Place, t: VotingsTables, f: Filling, t': VotingsTables)
    requires cfg.epochCtx.Divisors() && Sane(chain)
    requires p.epoch > 0 && p.prevHeight == cfg.epochCtx.GetEpochHeight(p.epoch - 1) && Bounded(t, p.epoch - 1)
    requires InitEpoch(cfg.epochCtx, p.epoch) || p.epoch == 1 || RowsRight(t.result, cfg, chain, p.epoch - 1)
    requires StakingHandled(cfg, chain, cfg.epochCtx.GetEpochHeight(p.epoch), p, t.result, t, f, t')
    requires t'.probation == ProbationAfter(t.probation, p.epoch, chain.probation(p.epoch))
    ensures EpochRight(cfg, chain, t', p.epoch)
            && Covers(f.candidates, CandidatesAt(cfg, chain, p.epoch), chain.probation(p.epoch))
  {
    hide InitEpoch, EpochCtx.GetEpochHeight, Kept, FilteredBy, StakingRows, Aggregates, UniqueRows, Covers, NamesRight,
         RowsRight, ProbationRight, ProbationAfter, AggregateRight, AllEncodable, RateFits, CandidatesSane, NoStrays;
    var e, list, candidates := p.epoch, chain.probation(p.epoch), CandidatesAt(cfg, chain, p.epoch);
    FilterCovers(f.candidates, candidates, list);
    RowsBecomeRight(cfg, chain, p, t.result, f);
    RowsHaveNames(cfg, chain, cfg.epochCtx.GetEpochHeight(e), p, t.result, f);
    SaneIsUnique(candidates);
    NamesAreRight(t.result, f.rows, f.candidates, candidates, list, e);
    ProbationBecomesRight(t.probation, e, list);
    forall i, voter | 0 <= i < |candidates|
      ensures AggregateRight(t'.aggregate, chain, candidates, BucketsAt(cfg, chain, e), list, e, i, voter)
    {
      AggregatesAreRight(t.aggregate, t'.aggregate, chain, BucketsAt(cfg, chain, e), candidates, list, e, f, i, voter);
    }
    NothingStray(t.aggregate, t'.aggregate, chain, BucketsAt(cfg, chain, e), candidates, list, e, f);
  }

  lemma NothingStray(t: map<AggregateKey, int>, t': map<AggregateKey, int>, chain: Chain, buckets: seq<Bucket>,
                     candidates: seq<Candidate>, list: Option<ProbationList>, e: nat, f: Filling)
    requires RateFits(list) && Covers(f.candidates, candidates, list)
    requires (forall k :: k in t ==> k.epoch != e) && Aggregates(t, t', chain, buckets, e, list, f)
    ensures NoStrays(t', candidates, e)
  {
    hide SumsTo, PenalisedRight, NameOr, AfterFilter, OwnerNamesTo, Covers, Scaled;
    forall k | k in t' && k.epoch == e
      ensures exists i :: 0 <= i < |candidates| && k.candidateName == NameOr(candidates[i].name)
    {
      var p :| p in f.sums.Keys && k == KeyOf(e, f.names, p) && t'[k] == Scaled(f.sums[p], p.0, f.rate, f.penalised);
      NameOfCandidate(f.candidates, candidates, list, f.names, p.0);
    }
  }

  lemma NameOfCandidate(result: seq<Candidate>, candidates: seq<Candidate>, list: Option<ProbationList>,
                        names: map<Str, Str>, owner: Str)
    requires RateFits(list) && Covers(result, candidates, list) && OwnerNamesTo(result, |result|) == Some(names)
             && owner in names
    ensures exists i :: 0 <= i < |candidates| && names[owner] == NameOr(candidates[i].name)
  {
    hide NameOr, AfterFilter, OwnerNamesTo;
    NamesOfOwners(result, |result|);
    var j :| 0 <= j < |result| && result[j].ownerAddress == owner;
    var i :| 0 <= i < |candidates| && result[j] == AfterFilter(candidates[i], list);
    FilterKeeps(candidates[i], list);
  }

  lemma ElectionBecomesRight(chain: Chain, p: Place, t: VotingsTables, f: Filling, t': VotingsTables)
    requires p.epoch > 0 && Bounded(t, p.epoch - 1) && ElectionHandled(chain, p, t, f, t')
    ensures ElectionRight(chain, t', p.epoch)
  {
    hide UniqueRows, ProbationAfter, ProbationRight;
    ProbationBecomesRight(t.probation, p.epoch, chain.probation(p.epoch));
    var result := chain.electionResult(p.epoch);
    forall i | 0 <= i < |result| ensures result[i].(epoch := p.epoch) in t'.result {
      assert f.rows[i] in f.rows;
    }
    forall row | row in t'.result && row.epoch == p.epoch
      ensures exists i :: 0 <= i < |result| && row == result[i].(epoch := p.epoch)
    {
      var i :| 0 <= i < |f.rows| && f.rows[i] == row;
    }
  }

  lemma ElectionStaysRight(cfg: Config, chain: Chain, t: VotingsTables, t': VotingsTables, e: nat, d: nat)
    requires cfg.epochCtx.Divisors() && 0 < d < e && OnlyAdds(cfg, t, t', e) && ElectionRight(chain, t, d)
    ensures ElectionRight(chain, t', d)
  {
    hide EpochCtx.GetEpochHeight, ProbationRight;
    RowsOfOther(t.result, t'.result, e, d);
    ProbationStaysRight(t.probation, t'.probation, e, d, chain.probation(d));
  }

  lemma RowsOfOther(rows: seq<VotingRow>, rows': seq<VotingRow>, e: nat, d: nat)
    requires d != e && rows <= rows' && forall i :: |rows| <= i < |rows'| ==> rows'[i].epoch == e
    ensures forall row :: row in rows ==> row in rows'
    ensures forall row :: row in rows' && row.epoch == d ==> row in rows
  {
    forall row | row in rows ensures row in rows' {
      var i :| 0 <= i < |rows| && rows[i] == row;
      assert rows'[i] == row;
    }
    forall row | row in rows' && row.epoch == d ensures row in rows {
      var i :| 0 <= i < |rows'| && rows'[i] == row;
      assert rows[i] == row;
    }
  }

  lemma ProbationStaysRight(t: map<(nat, Str), ProbationRow>, t': map<(nat, Str), ProbationRow>, e: nat, d: nat,
                            list: Option<ProbationList>)
    requires d != e && ProbationRight(t, d, list)
    requires (forall p :: p in t ==> p in t' && t'[p] == t[p]) && forall p :: p in t' && p !in t ==> p.0 == e
    ensures ProbationRight(t', d, list)
  {
    hide FirstCountTo, Listed;
  }

  lemma SaneIsUnique(candidates: seq<Candidate>)
    requires CandidatesSane(candidates)
    ensures UniqueOperators(candidates) && UniqueOwners(candidates)
  {}

  lemma RowsHaveNames(cfg: Config, chain: Chain, h: nat, p: Place, stored: seq<VotingRow>, f: Filling)
    requires p.epoch > 0 && StakingRows(f.rows, cfg, chain, h, p, stored, f.candidates, |f.candidates|)
    ensures |f.rows| == |f.candidates|
    ensures forall j ::
              0 <= j < |f.rows| ==> f.rows[j].epoch == p.epoch && f.rows[j].delegateName == NameOr(f.candidates[j].name)
                                              && f.rows[j].totalWeightedVotes == f.candidates[j].totalWeightedVotes
  {
    hide PortionsFor, NameOr;
  }

  /* ---------- what was stored stays ---------- */

  /** Nothing stored before is changed or removed, and everything added belongs to epoch e. */
  ghost predicate OnlyAdds(cfg: Config, t: VotingsTables, t': VotingsTables, e: nat)
    requires cfg.epochCtx.Divisors()
  {
    && t.result <= t'.result && (forall i :: |t.result| <= i < |t'.result| ==> t'.result[i].epoch == e)
    && (forall k :: k in t.aggregate ==> k in t'.aggregate && t'.aggregate[k] == t.aggregate[k])
    && (forall k :: k in t'.aggregate && k !in t.aggregate ==> k.epoch == e)
    && (forall p :: p in t.probation ==> p in t'.probation && t'.probation[p] == t.probation[p])
    && (forall p :: p in t'.probation && p !in t.probation ==> p.0 == e)
    && (forall h ::
          h in t.buckets && h != cfg.epochCtx.GetEpochHeight(e) ==> h in t'.buckets && t'.buckets[h] == t.buckets[h])
    && (forall h ::
          h in t.candidates && h != cfg.epochCtx.GetEpochHeight(e) ==>
            h in t'.candidates && t'.candidates[h] == t.candidates[h])
  }

  lemma RowsStayRight(cfg: Config, chain: Chain, rows: seq<VotingRow>, rows': seq<VotingRow>, e: nat, d: nat)
    requires cfg.epochCtx.Divisors() && 0 < d != e && RateFits(chain.probation(d)) && RowsRight(rows, cfg, chain, d)
    requires rows <= rows' && forall i :: |rows| <= i < |rows'| ==> rows'[i].epoch == e
    ensures RowsRight(rows', cfg, chain, d)
  {}

  lemma AggregateStaysRight(t: map<AggregateKey, int>, t': map<AggregateKey, int>, chain: Chain,
                            candidates: seq<Candidate>, buckets: seq<Bucket>, list: Option<ProbationList>, e: nat,
                            d: nat, i: nat, voter: Str)
    requires i < |candidates| && RateFits(list) && d != e
             && AggregateRight(t, chain, candidates, buckets, list, d, i, voter)
    requires (forall k :: k in t ==> k in t' && t'[k] == t[k]) && forall k :: k in t' && k !in t ==> k.epoch == e
    ensures AggregateRight(t', chain, candidates, buckets, list, d, i, voter)
  {
    hide WeightTo, CountTo, SelfStakes, NameOr, Penalises;
  }

  lemma EpochStaysRight(cfg: Config, chain: Chain, t: VotingsTables, t': VotingsTables, e: nat, d: nat)
    requires cfg.epochCtx.Divisors() && 0 < d < e && RateFits(chain.probation(d))
    requires OnlyAdds(cfg, t, t', e) && EpochRight(cfg, chain, t, d)
    ensures EpochRight(cfg, chain, t', d)
  {
    hide EpochCtx.GetEpochHeight, CandidatesAt, BucketsAt, RowsRight, NamesRight, AggregateRight;
    HeightStrictlyMonotone(cfg.epochCtx, d, e);
    RowsStayRight(cfg, chain, t.result, t'.result, e, d);
    var candidates, buckets := CandidatesAt(cfg, chain, d), BucketsAt(cfg, chain, d);
    forall i, voter | 0 <= i < |candidates|
      ensures AggregateRight(t'.aggregate, chain, candidates, buckets, chain.probation(d), d, i, voter)
    {
      AggregateStaysRight(t.aggregate, t'.aggregate, chain, candidates, buckets, chain.probation(d), e, d, i, voter);
    }
  }

  /* ---------- every block keeps the views ---------- */

  lemma ProbationOnlyAdds(t: map<(nat, Str), ProbationRow>, e: nat, list: Option<ProbationList>)
    ensures var t' := ProbationAfter(t, e, list);
            && (forall p :: p in t ==> p in t' && t'[p] == t[p]) && (forall p :: p in t' && p !in t ==> p.0 == e)
  {
    if list.Some? { ProbationRows(t, e, list.value, |list.value.entries|); }
  }

  lemma AggregatesOnlyAdd(t: map<AggregateKey, int>, t': map<AggregateKey, int>, chain: Chain, buckets: seq<Bucket>,
                          e: nat, list: Option<ProbationList>, f: Filling)
    requires Aggregates(t, t', chain, buckets, e, list, f)
    ensures (forall k :: k in t ==> k in t' && t'[k] == t[k]) && forall k :: k in t' && k !in t ==> k.epoch == e
  {
    hide OwnerNamesTo, SumsTo, PenalisedRight;
  }

  lemma StakingOnlyAdds(cfg: Config, chain: Chain, p: Place, t: VotingsTables, f: Filling, t': VotingsTables)
    requires cfg.epochCtx.Divisors() && p.epoch > 0 && RateFits(chain.probation(p.epoch))
    requires StakingHandled(cfg, chain, cfg.epochCtx.GetEpochHeight(p.epoch), p, t.result, t, f, t')
    requires t'.probation == ProbationAfter(t.probation, p.epoch, chain.probation(p.epoch))
    ensures OnlyAdds(cfg, t, t', p.epoch)
  {
    hide EpochCtx.GetEpochHeight, Kept, FilteredBy, StakingRows, Aggregates, UniqueRows, ProbationAfter, AllEncodable,
         RateFits;
    ProbationOnlyAdds(t.probation, p.epoch, chain.probation(p.epoch));
    AggregatesOnlyAdd(t.aggregate, t'.aggregate, chain, Kept(chain.buckets(p.prevHeight), Staked), p.epoch,
                      chain.probation(p.epoch), f);
    RowsHaveNames(cfg, chain, cfg.epochCtx.GetEpochHeight(p.epoch), p, t.result, f);
  }

  lemma ElectionOnlyAdds(cfg: Config, chain: Chain, p: Place, t: VotingsTables, f: Filling, t': VotingsTables)
    requires cfg.epochCtx.Divisors() && p.epoch > 0 && ElectionHandled(chain, p, t, f, t')
    ensures OnlyAdds(cfg, t, t', p.epoch)
  {
    hide EpochCtx.GetEpochHeight, UniqueRows, ProbationAfter;
    ProbationOnlyAdds(t.probation, p.epoch, chain.probation(p.epoch));
  }

  lemma VotesStayNotNegative(t: seq<VotingRow>, rows: seq<VotingRow>)
    requires VotesNotNegative(t) && VotesNotNegative(rows)
    ensures VotesNotNegative(t + rows)
  {}

  lemma FilteredVotesNotNegative(f: Filling, candidates: seq<Candidate>, list: Option<ProbationList>)
    requires RateFits(list) && CandidatesSane(candidates) && Covers(f.candidates, candidates, list)
             && |f.rows| == |f.candidates|
    requires forall j :: 0 <= j < |f.rows| ==> f.rows[j].totalWeightedVotes == f.candidates[j].totalWeightedVotes
    ensures VotesNotNegative(f.rows)
  {
    hide AfterFilter, UniqueOperators, UniqueOwners;
    forall j | 0 <= j < |f.rows| ensures f.rows[j].totalWeightedVotes >= 0 {
      var i :| 0 <= i < |candidates| && f.candidates[j] == AfterFilter(candidates[i], list);
      FilterKeeps(candidates[i], list);
    }
  }

  lemma BoundedGrows(cfg: Config, t: VotingsTables, t': VotingsTables, e: nat)
    requires cfg.epochCtx.Divisors() && e > 0 && Bounded(t, e - 1) && OnlyAdds(cfg, t, t', e)
    ensures Bounded(t', e)
  {}

  /** A staking epoch's first block: the epoch becomes right, the earlier ones stay so. */
  lemma StakingKeepsViews(cfg: Config, chain: Chain, p: Place, t: VotingsTables, f: Filling, t': VotingsTables)
    requires Sound(cfg) && Sane(chain) && cfg.rolldpos
    requires p.epoch > 0 && p.prevHeight == cfg.epochCtx.GetEpochHeight(p.epoch - 1)
             && StakingEpoch(cfg.epochCtx, p.epoch)
    requires Views(cfg, chain, t, p.epoch - 1)
    requires StakingHandled(cfg, chain, cfg.epochCtx.GetEpochHeight(p.epoch), p, t.result, t, f, t')
    requires t'.probation == ProbationAfter(t.probation, p.epoch, chain.probation(p.epoch))
    ensures Views(cfg, chain, t', p.epoch) && OnlyAdds(cfg, t, t', p.epoch)
  {
    hide EpochCtx.GetEpochHeight, InitEpoch, StakingEpoch, FilteredBy, StakingRows, Aggregates, UniqueRows,
         ProbationAfter, AllEncodable, Bounded, OnlyAdds, EpochRight, ElectionRight, Covers, VotesNotNegative,
         CandidatesSane;
    InitOnce(cfg.epochCtx, p.epoch, p.epoch);
    if !InitEpoch(cfg.epochCtx, p.epoch) && p.epoch > 1 { EpochHasRows(cfg, chain, t, p.epoch - 1); }
    EpochBecomesRight(cfg, chain, p, t, f, t');
    StakingOnlyAdds(cfg, chain, p, t, f, t');
    BoundedGrows(cfg, t, t', p.epoch);
    RowsHaveNames(cfg, chain, cfg.epochCtx.GetEpochHeight(p.epoch), p, t.result, f);
    FilteredVotesNotNegative(f, CandidatesAt(cfg, chain, p.epoch), chain.probation(p.epoch));
    VotesStayNotNegative(t.result, f.rows);
    EarlierStayRight(cfg, chain, t, t', p.epoch);
  }

  lemma EpochHasRows(cfg: Config, chain: Chain, t: VotingsTables, e: nat)
    requires cfg.epochCtx.Divisors() && e > 0 && RateFits(chain.probation(e)) && EpochRight(cfg, chain, t, e)
    ensures RowsRight(t.result, cfg, chain, e)
  {}

  lemma EarlierStayRight(cfg: Config, chain: Chain, t: VotingsTables, t': VotingsTables, e: nat)
    requires cfg.epochCtx.Divisors() && Sane(chain) && e > 0 && Views(cfg, chain, t, e - 1) && OnlyAdds(cfg, t, t', e)
    ensures forall d :: 1 <= d < e && cfg.rolldpos && StakingEpoch(cfg.epochCtx, d) ==> EpochRight(cfg, chain, t', d)
    ensures forall d :: 1 <= d < e && cfg.rolldpos && !StakingEpoch(cfg.epochCtx, d) ==> ElectionRight(chain, t', d)
  {
    hide EpochRight, ElectionRight, OnlyAdds, StakingEpoch;
    forall d: nat | 1 <= d < e && cfg.rolldpos && !StakingEpoch(cfg.epochCtx, d) ensures ElectionRight(chain, t', d) {
      ElectionStaysRight(cfg, chain, t, t', e, d);
    }
    forall d: nat | 1 <= d < e && cfg.rolldpos && StakingEpoch(cfg.epochCtx, d) ensures EpochRight(cfg, chain, t', d) {
      EpochStaysRight(cfg, chain, t, t', e, d);
    }
  }

  lemma ElectionKeepsViews(cfg: Config, chain: Chain, p: Place, t: VotingsTables, f: Filling, t': VotingsTables)
    requires Sound(cfg) && Sane(chain) && p.epoch > 0 && !StakingEpoch(cfg.epochCtx, p.epoch)
    requires Views(cfg, chain, t, p.epoch - 1) && ElectionHandled(chain, p, t, f, t')
    ensures Views(cfg, chain, t', p.epoch) && OnlyAdds(cfg, t, t', p.epoch)
  {
    ElectionBecomesRight(chain, p, t, f, t');
    hide EpochCtx.GetEpochHeight, StakingEpoch, UniqueRows, ProbationAfter, Bounded, OnlyAdds, EpochRight,
         ElectionRight;
    ElectionOnlyAdds(cfg, chain, p, t, f, t');
    BoundedGrows(cfg, t, t', p.epoch);
    assert VotesNotNegative(chain.electionResult(p.epoch));
    VotesStayNotNegative(t.result, f.rows);
    EarlierStayRight(cfg, chain, t, t', p.epoch);
  }

  lemma NothingKeepsViews(cfg: Config, chain: Chain, t: VotingsTables, open: nat, e: nat)
    requires cfg.epochCtx.Divisors() && Sane(chain) && Views(cfg, chain, t, open) && open <= e
             && (open == e || !cfg.rolldpos)
    ensures Views(cfg, chain, t, e) && OnlyAdds(cfg, t, t, e)
  {
    hide EpochRight, ElectionRight, UniqueRows, StakingEpoch, EpochCtx.GetEpochHeight;
  }

  /** Handling the next block keeps the voting tables right: every staking epoch opened so far has exactly the
      rows its candidates are due, with the portions carried to it, and the sums of its buckets; nothing
      stored before changes. */
  lemma HandlingKeepsViews(cfg: Config, chain: Chain, h: nat, t: VotingsTables, f: Filling, t': VotingsTables,
                           open: nat)
    requires Sound(cfg) && Sane(chain) && h > 0 && Views(cfg, chain, t, open)
    requires var p := PlaceOf(cfg.epochCtx, h);
             p.epoch == open + (if p.starts then 1 else 0) && Handled(cfg, chain, h, p, t.result, t, f, t')
    ensures var p := PlaceOf(cfg.epochCtx, h); Views(cfg, chain, t', p.epoch) && OnlyAdds(cfg, t, t', p.epoch)
  {
    hide StakingHandled, ElectionHandled, ProbationAfter, OnlyAdds, Views, EpochCtx.GetEpochHeight,
         EpochCtx.GetEpochNumber;
    var p := PlaceOf(cfg.epochCtx, h);
    if !cfg.rolldpos || !p.starts {
      NothingKeepsViews(cfg, chain, t, open, p.epoch);
    } else if p.staking {
      StakingKeepsViews(cfg, chain, p, t, f, t');
    } else {
      ElectionKeepsViews(cfg, chain, p, t, f, t');
    }
  }

  /* ---------- the table against the query ---------- */

  lemma {:induction false} FirstWithName(candidates: seq<Candidate>, i: nat, k: nat)
    requires k <= i < |candidates| && NamesRight(candidates)
    ensures AddressFrom(candidates, NameOr(candidates[i].name), k) == Success(candidates[i].ownerAddress)
    decreases i - k
  {
    hide Encoded;
    assert Encoded(candidates[k].name).Success?;
    if k < i {
      assert NameOr(candidates[k].name) != NameOr(candidates[i].name);
      FirstWithName(candidates, i, k + 1);
    }
  }

  /** The probation table penalises exactly the owner of a listed operator, at the list's rate. */
  lemma TablePenalties(t: VotingsTables, e: nat, candidates: seq<Candidate>, list: Option<ProbationList>,
                       rate: nat, penalised: set<Str>, i: nat)
    requires RateFits(list) && UniqueOwners(candidates) && i < |candidates|
    requires ProbationRight(t.probation, e, list) && PenalisedByTable(t, e, candidates, rate, penalised)
    ensures candidates[i].ownerAddress in penalised <==> Penalises(list, candidates[i])
    ensures candidates[i].ownerAddress in penalised ==> rate == 100 - list.value.intensityRate as int
  {
    hide Listed;
  }

  lemma {:induction false} KeptPass<T>(server: seq<T>, keep: T -> bool, n: nat)
    requires n <= |server|
    ensures forall i :: 0 <= i < |KeptTo(server, keep, n)| ==> keep(KeptTo(server, keep, n)[i])
  {
    if n > 0 { KeptPass(server, keep, n - 1); }
  }

  /** For a candidate and a voter of a staking epoch, the aggregate_voting row against the buckets that a query
      by the candidate's encoded name returns one by one: there is a row exactly when the query returns a
      bucket of the voter. Without a penalty the row is the sum of the buckets' weighted votes; with one the
      sum falls short of the row by less than the number of buckets. */
  lemma AggregateAgainstQuery(cfg: Config, chain: Chain, t: VotingsTables, e: nat, i: nat, voter: Str, rate: nat,
                              penalised: set<Str>)
    requires cfg.epochCtx.Divisors() && e > 0 && Sane(chain) && EpochRight(cfg, chain, t, e)
             && i < |CandidatesAt(cfg, chain, e)|
    requires PenalisedByTable(t, e, CandidatesAt(cfg, chain, e), rate, penalised)
    ensures var h, candidates, buckets :=
            cfg.epochCtx.GetEpochHeight(e), CandidatesAt(cfg, chain, e), BucketsAt(cfg, chain, e);
            var c := candidates[i];
            var k := AggregateKey(e, NameOr(c.name), voter);
            var infos := InfosTo(chain, SelfStakes(candidates), buckets, c.ownerAddress, rate, penalised, |buckets|);
            && h in t.candidates && t.candidates[h] == candidates && h in t.buckets && t.buckets[h] == buckets
            && AddressFrom(candidates, NameOr(c.name), 0) == Success(c.ownerAddress)
            && (k in t.aggregate <==> exists j :: 0 <= j < |infos| && infos[j].voter == voter)
            && (k in t.aggregate && !Penalises(chain.probation(e), c) ==> t.aggregate[k] == VoterSum(infos, voter))
            && (k in t.aggregate && Penalises(chain.probation(e), c) ==>
                  VoterSum(infos, voter) <= t.aggregate[k]
                  < VoterSum(infos, voter) + CountTo(buckets, c.ownerAddress, voter, |buckets|))
  {
    var candidates, buckets, list := CandidatesAt(cfg, chain, e), BucketsAt(cfg, chain, e), chain.probation(e);
    var c := candidates[i];
    SaneAt(cfg, chain, e);
    hide EpochCtx.GetEpochHeight, InfosTo, VoterSum, WeightTo, CountTo, SelfStakes, NameOr, AddressFrom, RowsRight,
         NamesRight, CandidatesAt, BucketsAt, PenalisedByTable, ProbationRight, Penalises, UniqueOwners, Staked, Sane,
         Kept;
    FirstWithName(candidates, i, 0);
    TablePenalties(t, e, candidates, list, rate, penalised, i);
    SummedAgainstBuckets(chain, SelfStakes(candidates), buckets, c.ownerAddress, voter, rate, penalised, |buckets|);
    InfoForEveryBucket(chain, SelfStakes(candidates), buckets, c.ownerAddress, voter, rate, penalised, |buckets|);
    assert AggregateRight(t.aggregate, chain, candidates, buckets, list, e, i, voter);
  }

  lemma SaneAt(cfg: Config, chain: Chain, e: nat)
    requires cfg.epochCtx.Divisors() && e > 0 && Sane(chain)
    ensures UniqueOwners(CandidatesAt(cfg, chain, e)) && RateFits(chain.probation(e))
    ensures forall i :: 0 <= i < |BucketsAt(cfg, chain, e)| ==> Staked(BucketsAt(cfg, chain, e)[i])
  {
    var server := chain.buckets(cfg.epochCtx.GetEpochHeight(e - 1));
    KeptPass(server, Staked, |server|);
    assert CandidatesSane(Kept(chain.candidates(cfg.epochCtx.GetEpochHeight(e - 1)), SelfStaked));
  }

  function ScannedPortions(cfg: Config, chain: Chain, e: nat, a: Str): Portions
    requires cfg.epochCtx.Divisors()
  {
    Portions(Scanned(cfg, chain, e, BlockPortion, a), Scanned(cfg, chain, e, EpochPortion, a),
             Scanned(cfg, chain, e, FoundationPortion, a))
  }

  /** A stored row of a delegate that never sat out a staking epoch holds the portions that one scan of all
      logs gives. */
  lemma StoredPortionsEqualScan(cfg: Config, chain: Chain, t: VotingsTables, e: nat, row: VotingRow)
    requires Carries(cfg) && Sane(chain) && InOrder(chain.profileLogs) && StakingEpoch(cfg.epochCtx, e)
    requires EpochRight(cfg, chain, t, e) && row in t.result && row.epoch == e
    requires NeverAbsent(cfg, chain, e, row.stakingAddress)
    ensures row.portions == ScannedPortions(cfg, chain, e, row.stakingAddress)
  {
    SaneAt(cfg, chain, e);
    NeverAbsentPortions(cfg, chain, e, row.stakingAddress);
    hide CarriedPortions, ScannedPortions, NeverAbsent, EpochCtx.GetEpochHeight, RowOfCandidate, CandidatesAt, Sane,
         Carries;
    var i :| 0 <= i < |CandidatesAt(cfg, chain, e)|
        && row == RowOfCandidate(cfg, chain, e, CandidatesAt(cfg, chain, e)[i]);
    RowFields(cfg, chain, e, CandidatesAt(cfg, chain, e)[i]);
  }

  lemma NeverAbsentPortions(cfg: Config, chain: Chain, e: nat, a: Str)
    requires Carries(cfg) && InOrder(chain.profileLogs) && StakingEpoch(cfg.epochCtx, e)
             && NeverAbsent(cfg, chain, e, a)
    ensures CarriedPortions(cfg, chain, e, a) == ScannedPortions(cfg, chain, e, a)
  {
    hide Carried, Scanned, NeverAbsent, EpochCtx.GetEpochHeight;
    NeverAbsentScans(cfg, chain, e, BlockPortion, a);
    NeverAbsentScans(cfg, chain, e, EpochPortion, a);
    NeverAbsentScans(cfg, chain, e, FoundationPortion, a);
  }

  /* ---------- two tables that are right are the same ---------- */

  /** The same rows, in whatever order. */
  ghost predicate SameRows(a: seq<VotingRow>, b: seq<VotingRow>) {
    forall row :: row in a <==> row in b
  }

  ghost predicate SameAggregates(a: map<AggregateKey, int>, b: map<AggregateKey, int>, e: nat) {
    forall k: AggregateKey :: k.epoch == e ==> (k in a <==> k in b) && (k in a && k in b ==> a[k] == b[k])
  }

  lemma SameRowsOfEpoch(cfg: Config, chain: Chain, a: VotingsTables, b: VotingsTables, open: nat, row: VotingRow)
    requires cfg.epochCtx.Divisors() && Sane(chain) && cfg.rolldpos
    requires Views(cfg, chain, a, open) && Views(cfg, chain, b, open) && row in a.result
    ensures row in b.result
  {
    var e := row.epoch;
    if StakingEpoch(cfg.epochCtx, e) {
      EpochHasRows(cfg, chain, a, e);
      EpochHasRows(cfg, chain, b, e);
      hide EpochRight, ElectionRight, RowOfCandidate, CandidatesAt, StakingEpoch, UniqueRows;
    } else {
      hide EpochRight, StakingEpoch, UniqueRows, ProbationRight;
      assert ElectionRight(chain, a, e) && ElectionRight(chain, b, e);
    }
  }

  lemma ProbationOfEpoch(cfg: Config, chain: Chain, t: VotingsTables, open: nat, e: nat)
    requires cfg.epochCtx.Divisors() && Sane(chain) && cfg.rolldpos && Views(cfg, chain, t, open) && 1 <= e <= open
    ensures ProbationRight(t.probation, e, chain.probation(e))
  {
    hide StakingEpoch, UniqueRows, RowsRight, AllAggregatesRight, NamesRight, RawRight, Bounded, ProbationRight;
    if StakingEpoch(cfg.epochCtx, e) {
      assert EpochRight(cfg, chain, t, e);
    } else {
      assert ElectionRight(chain, t, e);
    }
  }

  lemma SameProbationAt(t: map<(nat, Str), ProbationRow>, t': map<(nat, Str), ProbationRow>, e: nat,
                        list: Option<ProbationList>, a: Str)
    requires ProbationRight(t, e, list) && ProbationRight(t', e, list)
    ensures (e, a) in t <==> (e, a) in t'
    ensures (e, a) in t ==> t'[(e, a)] == t[(e, a)]
  {
    hide Listed, FirstCountTo;
  }

  lemma SameProbation(cfg: Config, chain: Chain, a: VotingsTables, b: VotingsTables, open: nat)
    requires cfg.epochCtx.Divisors() && Sane(chain) && cfg.rolldpos
    requires Views(cfg, chain, a, open) && Views(cfg, chain, b, open)
    ensures a.probation == b.probation
  {
    hide EpochRight, ElectionRight, StakingEpoch, UniqueRows, VotesNotNegative, Sane;
    forall p: (nat, Str)
      ensures p in a.probation <==> p in b.probation
      ensures p in a.probation ==> b.probation[p] == a.probation[p]
    {
      if 1 <= p.0 <= open {
        hide Views, Bounded;
        ProbationOfEpoch(cfg, chain, a, open, p.0);
        ProbationOfEpoch(cfg, chain, b, open, p.0);
        SameProbationAt(a.probation, b.probation, p.0, chain.probation(p.0), p.1);
      }
    }
  }

  lemma SameAggregateAt(a: map<AggregateKey, int>, b: map<AggregateKey, int>, chain: Chain, candidates: seq<Candidate>,
                        buckets: seq<Bucket>, list: Option<ProbationList>, e: nat, k: AggregateKey)
    requires RateFits(list) && k.epoch == e && k in a
    requires AllAggregatesRight(a, chain, candidates, buckets, list, e)
             && AllAggregatesRight(b, chain, candidates, buckets, list, e)
    ensures k in b && b[k] == a[k]
  {
    hide WeightTo, CountTo, SelfStakes, NameOr, Penalises;
    var i :| 0 <= i < |candidates| && k.candidateName == NameOr(candidates[i].name);
    assert AggregateRight(a, chain, candidates, buckets, list, e, i, k.voter);
    assert AggregateRight(b, chain, candidates, buckets, list, e, i, k.voter);
  }

  lemma SameAggregatesAt(a: map<AggregateKey, int>, b: map<AggregateKey, int>, chain: Chain, candidates: seq<Candidate>,
                         buckets: seq<Bucket>, list: Option<ProbationList>, e: nat)
    requires RateFits(list)
    requires AllAggregatesRight(a, chain, candidates, buckets, list, e)
             && AllAggregatesRight(b, chain, candidates, buckets, list, e)
    ensures SameAggregates(a, b, e)
  {
    hide AllAggregatesRight;
    forall k: AggregateKey | k.epoch == e
      ensures k in a <==> k in b
      ensures k in a && k in b ==> a[k] == b[k]
    {
      if k in a { SameAggregateAt(a, b, chain, candidates, buckets, list, e, k); }
      if k in b { SameAggregateAt(b, a, chain, candidates, buckets, list, e, k); }
    }
  }

  lemma AggregatesOfEpoch(cfg: Config, chain: Chain, t: VotingsTables, open: nat, e: nat)
    requires cfg.epochCtx.Divisors() && Sane(chain) && cfg.rolldpos && Views(cfg, chain, t, open)
    requires 1 <= e <= open && StakingEpoch(cfg.epochCtx, e)
    ensures AllAggregatesRight(t.aggregate, chain, CandidatesAt(cfg, chain, e), BucketsAt(cfg, chain, e),
                               chain.probation(e), e)
  {
    hide StakingEpoch, UniqueRows, RowsRight, AllAggregatesRight, NamesRight, RawRight, Bounded, ProbationRight;
    assert EpochRight(cfg, chain, t, e);
  }

  /** The raw staking records of a height. */
  ghost predicate SameRaw(a: VotingsTables, b: VotingsTables, h: nat) {
    && h in a.buckets && h in b.buckets && a.buckets[h] == b.buckets[h]
    && h in a.candidates && h in b.candidates && a.candidates[h] == b.candidates[h]
  }

  lemma SameRawRecords(cfg: Config, chain: Chain, a: VotingsTables, b: VotingsTables, open: nat, e: nat)
    requires cfg.epochCtx.Divisors() && Sane(chain) && cfg.rolldpos
    requires Views(cfg, chain, a, open) && Views(cfg, chain, b, open) && 1 <= e <= open && StakingEpoch(cfg.epochCtx, e)
    ensures SameRaw(a, b, cfg.epochCtx.GetEpochHeight(e))
  {
    hide RowsRight, NamesRight, AllAggregatesRight, ProbationRight, ElectionRight, UniqueRows, VotesNotNegative,
         Bounded, CandidatesAt, BucketsAt, EpochCtx.GetEpochHeight, EpochCtx.FairbankEffectiveHeight, StakingEpoch,
         RateFits;
  }

  /** Two voting tables that hold what the chain calls for up to the same epoch have the same voting and
      probation rows, and the same aggregates of every staking epoch. */
  lemma SameViews(cfg: Config, chain: Chain, a: VotingsTables, b: VotingsTables, open: nat)
    requires cfg.epochCtx.Divisors() && Sane(chain) && cfg.rolldpos
    requires Views(cfg, chain, a, open) && Views(cfg, chain, b, open)
    ensures SameRows(a.result, b.result) && a.probation == b.probation
    ensures forall e :: StakingEpoch(cfg.epochCtx, e) ==> SameAggregates(a.aggregate, b.aggregate, e)
  {
    forall row ensures row in a.result <==> row in b.result {
      hide Views, Sane;
      if row in a.result { SameRowsOfEpoch(cfg, chain, a, b, open, row); }
      if row in b.result { SameRowsOfEpoch(cfg, chain, b, a, open, row); }
    }
    SameProbation(cfg, chain, a, b, open);
    hide EpochRight, ElectionRight, StakingEpoch, UniqueRows, VotesNotNegative, Sane;
    forall e: nat | StakingEpoch(cfg.epochCtx, e) ensures SameAggregates(a.aggregate, b.aggregate, e) {
      if 1 <= e <= open {
        AggregatesOfEpoch(cfg, chain, a, open, e);
        AggregatesOfEpoch(cfg, chain, b, open, e);
        SaneAt(cfg, chain, e);
        SameAggregatesAt(a.aggregate, b.aggregate, chain, CandidatesAt(cfg, chain, e), BucketsAt(cfg, chain, e),
                         chain.probation(e), e);
      } else {
        BeyondBounds(a, open, e);
        BeyondBounds(b, open, e);
      }
    }
  }

  lemma BeyondBounds(t: VotingsTables, open: nat, e: nat)
    requires Bounded(t, open) && !(1 <= e <= open)
    ensures forall k :: k in t.aggregate ==> k.epoch != e
  {}
}
