/** The voting protocol's epoch start (indexprotocol/votings): voting_result, aggregate_voting, the probation
    list and the raw staking records. */
module Votings {
  import opened Bytes
  import opened Wrappers
  import opened Schema
  import opened EpochContext
  import opened Store
  import opened DelegateName
  import opened Paging
  import opened Probation
  import opened RewardPortions
  import opened Aggregation

  /* ---------- rows ---------- */

  /** The encoded name, or nothing if it cannot be encoded. */
  function NameOr(name: Str): Str {
    match Encoded(name)
    case Success(encoded) => encoded
    case Failure(_) => []
  }

  function PortionsFor(cfg: Config, chain: Chain, height: nat, p: Place, stored: seq<VotingRow>, a: Str): Portions
    requires p.epoch > 0
  {
    Portions(PortionFor(cfg, chain, height, p.prevHeight, p.epoch, stored, BlockPortion, a),
             PortionFor(cfg, chain, height, p.prevHeight, p.epoch, stored, EpochPortion, a),
             PortionFor(cfg, chain, height, p.prevHeight, p.epoch, stored, FoundationPortion, a))
  }

  function StakingRow(e: nat, c: Candidate, portions: Portions): VotingRow {
    VotingRow(e, NameOr(c.name), c.operatorAddress, c.rewardAddress, c.totalWeightedVotes, portions, c.ownerAddress)
  }

  predicate SameKey(a: VotingRow, b: VotingRow) {
    a.epoch == b.epoch && a.delegateName == b.delegateName
  }

  /** The unique index on (epoch_number, delegate_name). */
  ghost predicate UniqueRows(rows: seq<VotingRow>) {
    forall i, j :: 0 <= i < j < |rows| ==> !SameKey(rows[i], rows[j])
  }

  lemma UniqueAppended(rows: seq<VotingRow>, row: VotingRow)
    requires UniqueRows(rows) && forall i :: 0 <= i < |rows| ==> !SameKey(rows[i], row)
    ensures UniqueRows(rows + [row])
  {}

  ghost predicate AllEncodable(candidates: seq<Candidate>, n: nat)
    requires n <= |candidates|
  {
    forall i :: 0 <= i < n ==> Encoded(candidates[i].name).Success?
  }

  /** The rows written for the first n candidates. */
  ghost predicate StakingRows(rows: seq<VotingRow>, cfg: Config, chain: Chain, height: nat, p: Place,
                              stored: seq<VotingRow>, candidates: seq<Candidate>, n: nat)
    requires p.epoch > 0 && n <= |candidates|
  {
    && |rows| == n
    && forall i :: 0 <= i < n ==>
         rows[i] ==
           StakingRow(p.epoch, candidates[i], PortionsFor(cfg, chain, height, p, stored, candidates[i].ownerAddress))
  }

  /** INSERT IGNORE of the first n entries of the probation list. */
  function ProbationTo(t: map<(nat, Str), ProbationRow>, e: nat, list: ProbationList, n: nat)
    : map<(nat, Str), ProbationRow>
    requires n <= |list.entries|
  {
    if n == 0 then t
    else
      var before := ProbationTo(t, e, list, n - 1);
      var k := list.entries[n - 1];
      if (e, k.address) in before then before else before[(e, k.address) := ProbationRow(list.intensityRate, k.count)]
  }

  /** The count of the first of n entries with an address. */
  function FirstCountTo(list: ProbationList, a: Str, n: nat): Option<nat>
    requires n <= |list.entries|
  {
    if n == 0 then None
    else
      match FirstCountTo(list, a, n - 1)
      case Some(count) => Some(count)
      case None => if list.entries[n - 1].address == a then Some(list.entries[n - 1].count) else None
  }

  /** The rows of an epoch that had none are those of the listed addresses, with the list's rate and the count of
      the address's first entry. */
  lemma {:induction false} ProbationRows(t: map<(nat, Str), ProbationRow>, e: nat, list: ProbationList, n: nat)
    requires n <= |list.entries|
    ensures var t' := ProbationTo(t, e, list, n);
            && (forall p ::
                  p in t' <==> p in t || (p.0 == e && exists j :: 0 <= j < n && list.entries[j].address == p.1))
            && (forall p :: p in t ==> t'[p] == t[p])
            && (forall p :: p in t' && p !in t ==>
                  && t'[p].intensityRate == list.intensityRate
                  && FirstCountTo(list, p.1, n) == Some(t'[p].count))
            && (forall a :: (e, a) !in t' ==> FirstCountTo(list, a, n) == None)
  {
    if n > 0 { ProbationRows(t, e, list, n - 1); }
  }

  function ProbationAfter(t: map<(nat, Str), ProbationRow>, e: nat, list: Option<ProbationList>)
    : map<(nat, Str), ProbationRow>
  {
    match list
    case None => t
    case Some(l) => ProbationTo(t, e, l, |l.entries|)
  }

  /** The rows of the election result, as those of epoch e. */
  ghost predicate ElectionRows(rows: seq<VotingRow>, result: seq<VotingRow>, e: nat, n: nat)
    requires n <= |result|
  {
    |rows| == n && forall i :: 0 <= i < n ==> rows[i] == result[i].(epoch := e)
  }

  /* ---------- what one block does ---------- */

  /** How an epoch's voting tables were filled. */
  datatype Filling = Filling(candidates: seq<Candidate>, names: map<Str, Str>, sums: map<(Str, Str), int>,
                             rate: nat, penalised: set<Str>, rows: seq<VotingRow>)

  const NOTHING := Filling([], map[], map[], 0, {}, [])

  /** The candidates after the probation filter, in the order the database receives them. */
  ghost predicate FilteredBy(result: seq<Candidate>, candidates: seq<Candidate>, list: Option<ProbationList>)
    requires RateFits(list)
  {
    match list
    case None => result == candidates
    case Some(l) => SortedFrom(result, ByOperator(candidates, l))
  }

  /** aggregate_voting after updateAggregateStaking. */
  ghost predicate Aggregates(t: map<AggregateKey, int>, t': map<AggregateKey, int>, chain: Chain, buckets: seq<Bucket>,
                             e: nat, list: Option<ProbationList>, f: Filling)
  {
    && OwnerNamesTo(f.candidates, |f.candidates|) == Some(f.names)
    && SumsTo(f.sums, chain, SelfStakes(f.candidates), buckets, f.names.Keys, |buckets|)
    && PenalisedRight(f.candidates, list, f.rate, f.penalised)
    && (forall p :: p in f.sums ==> p.0 in f.names)
    && Inserted(t, t', e, f.names, f.sums, f.rate, f.penalised, f.sums.Keys)
  }

  /** processStaking. */
  ghost predicate StakingHandled(cfg: Config, chain: Chain, h: nat, p: Place, stored: seq<VotingRow>,
                                 t: VotingsTables, f: Filling, t': VotingsTables)
    requires p.epoch > 0 && RateFits(chain.probation(p.epoch))
  {
    var list := chain.probation(p.epoch);
    var candidates := Kept(chain.candidates(p.prevHeight), SelfStaked);
    var buckets := Kept(chain.buckets(p.prevHeight), Staked);
    && t'.buckets == t.buckets[h := buckets] && t'.candidates == t.candidates[h := candidates]
    && FilteredBy(f.candidates, candidates, list)
    && AllEncodable(f.candidates, |f.candidates|)
    && StakingRows(f.rows, cfg, chain, h, p, stored, f.candidates, |f.candidates|)
    && t'.result == t.result + f.rows && UniqueRows(t'.result)
    && Aggregates(t.aggregate, t'.aggregate, chain, buckets, p.epoch, list, f)
  }

  ghost predicate RateFits(list: Option<ProbationList>) {
    list.Some? ==> list.value.intensityRate <= 100
  }

  /** Before staking moved: the election result is an oracle. */
  ghost predicate ElectionHandled(chain: Chain, p: Place, t: VotingsTables, f: Filling, t': VotingsTables) {
    var result := chain.electionResult(p.epoch);
    && ElectionRows(f.rows, result, p.epoch, |result|) && UniqueRows(t.result + f.rows)
    && t' == t.(result := t.result + f.rows, probation :=
                ProbationAfter(t.probation, p.epoch, chain.probation(p.epoch)))
  }

  ghost predicate Handled(cfg: Config, chain: Chain, h: nat, p: Place, stored: seq<VotingRow>,
                          t: VotingsTables, f: Filling, t': VotingsTables)
    requires p.epoch > 0 && RateFits(chain.probation(p.epoch))
  {
    if !cfg.rolldpos || !p.starts then t' == t
    else if p.staking then
      && StakingHandled(cfg, chain, h, p, stored, t, f, t')
      && t'.probation == ProbationAfter(t.probation, p.epoch, chain.probation(p.epoch))
    else ElectionHandled(chain, p, t, f, t')
  }

  /** The rows of some of these candidates cannot be inserted: a name cannot be encoded, or two rows of the
      epoch would share a name. */
  ghost predicate RowsClash(t: seq<VotingRow>, e: nat, candidates: seq<Candidate>) {
    || (exists i :: 0 <= i < |candidates| && Encoded(candidates[i].name).Failure?)
    || (exists i, j :: 0 <= i < j < |candidates| && NameOr(candidates[i].name) == NameOr(candidates[j].name))
    || (exists i, j ::
          0 <= i < |t| && 0 <= j < |candidates| && t[i].epoch == e && t[i].delegateName == NameOr(candidates[j].name))
  }

  ghost predicate ElectionClashes(t: seq<VotingRow>, e: nat, result: seq<VotingRow>) {
    || (exists i, j :: 0 <= i < j < |result| && result[i].delegateName == result[j].delegateName)
    || (exists i, j ::
          0 <= i < |t| && 0 <= j < |result| && t[i].epoch == e && t[i].delegateName == result[j].delegateName)
  }

  ghost predicate StakingFails(cfg: Config, chain: Chain, h: nat, p: Place, stored: seq<VotingRow>, t: seq<VotingRow>,
                                 out: Outage)
    requires p.epoch > 0 && RateFits(chain.probation(p.epoch))
  {
    || BucketsCall in out || CandidatesCall in out
    || PortionsFail(cfg, h, p.epoch, stored, out)
    || exists candidates ::
         FilteredBy(candidates, Kept(chain.candidates(p.prevHeight), SelfStaked), chain.probation(p.epoch))
                            && RowsClash(t, p.epoch, candidates)
  }

  /** Why handling a block fails. */
  ghost predicate Fails(cfg: Config, chain: Chain, h: nat, p: Place, stored: seq<VotingRow>, t: seq<VotingRow>,
                          out: Outage)
    requires p.epoch > 0 && RateFits(chain.probation(p.epoch))
  {
    && cfg.rolldpos && p.starts
    && (|| ProbationCall in out
        || (p.staking && StakingFails(cfg, chain, h, p, stored, t, out))
        || (!p.staking && ((p.epoch != 1 && GravityCall in out) || ElectionCall in out
                           || ElectionClashes(t, p.epoch, chain.electionResult(p.epoch)))))
  }

  class VotingsProtocol {
    const cfg: Config

    constructor (cfg: Config)
      ensures this.cfg == cfg
    {
      this.cfg := cfg;
    }

    /** INSERT INTO voting_result under its unique index. */
    method InsertVotingResult(tx: Tx, row: VotingRow) returns (outcome: Outcome)
      requires UniqueRows(tx.votings.result)
      modifies tx`votings
      ensures outcome.Pass?
              <==> forall i :: 0 <= i < |old(tx.votings.result)| ==> !SameKey(old(tx.votings.result)[i], row)
      ensures outcome.Pass?
              ==> tx.votings == old(tx.votings).(result := old(tx.votings.result) + [row])
                  && UniqueRows(tx.votings.result)
      ensures outcome.Fail? ==> tx.votings == old(tx.votings)
    {
      for i := 0 to |tx.votings.result|
        invariant tx.votings == old(tx.votings)
        invariant forall j :: 0 <= j < i ==> !SameKey(tx.votings.result[j], row)
      {
        if SameKey(tx.votings.result[i], row) { return Fail(DuplicateKey); }
      }
      UniqueAppended(tx.votings.result, row);
      tx.votings := tx.votings.(result := tx.votings.result + [row]);
      return Pass;
    }

    /** updateStakingResult. */
    method UpdateStakingResult(tx: Tx, stored: seq<VotingRow>, chain: Chain, height: nat, p: Place,
                               candidates: seq<Candidate>, out: Outage)
      returns (outcome: Outcome, ghost rows: seq<VotingRow>)
      requires p.epoch > 0 && p.prevHeight <= height && UniqueRows(tx.votings.result)
      modifies tx`votings
      ensures outcome.Pass? ==>
                && AllEncodable(candidates, |candidates|)
                && StakingRows(rows, cfg, chain, height, p, stored, candidates, |candidates|)
                && tx.votings == old(tx.votings).(result := old(tx.votings.result) + rows)
                && UniqueRows(tx.votings.result)
      ensures outcome.Fail? <==>
                PortionsFail(cfg, height, p.epoch, stored, out)
                  || RowsClash(old(tx.votings.result), p.epoch, candidates)
    {
      hide PortionsFor, PortionsRight, UniqueRows, StakingRows, RowsClash, PortionsFail, SameKey;
      rows := [];
      var maps;
      outcome, maps := GetAllPortions(cfg, chain, height, p.prevHeight, p.epoch, stored, out);
      if outcome.Fail? { return; }
      ghost var before := tx.votings;
      assert before.result + [] == before.result;
      NoRows(cfg, chain, height, p, stored, candidates);
      for i := 0 to |candidates|
        invariant AllEncodable(candidates, i)
        invariant StakingRows(rows, cfg, chain, height, p, stored, candidates, i)
        invariant tx.votings == before.(result := before.result + rows)
        invariant UniqueRows(tx.votings.result)
      {
        var c := candidates[i];
        var portions := maps.At(c.ownerAddress);
        MapsRight(maps, cfg, chain, height, p, stored, c.ownerAddress);
        var encodedName := EncodeDelegateName(c.name);
        if encodedName.Failure? {
          Unencodable(before.result, p.epoch, candidates, i);
          return Fail(encodedName.error), rows;
        }
        var row :=
            VotingRow(p.epoch, encodedName.value, c.operatorAddress, c.rewardAddress, c.totalWeightedVotes, portions,
                      c.ownerAddress);
        outcome := InsertVotingResult(tx, row);
        if outcome.Fail? {
          RowTaken(before.result, rows, row, cfg, chain, height, p, stored, candidates, i);
          return;
        }
        assert row == StakingRow(p.epoch, c, portions);
        OneMoreRow(rows, row, cfg, chain, height, p, stored, candidates, i);
        assert before.result + rows + [row] == before.result + (rows + [row]);
        rows := rows + [row];
      }
      InsertedDoNotClash(before.result, rows, cfg, chain, height, p, stored, candidates);
      outcome := Pass;
    }

    /** updateProbationListTable. */
    method UpdateProbationListTable(tx: Tx, e: nat, list: Option<ProbationList>)
      modifies tx`votings
      ensures tx.votings == old(tx.votings).(probation := ProbationAfter(old(tx.votings.probation), e, list))
    {
      if list.None? { return; }
      var t := tx.votings.probation;
      for i := 0 to |list.value.entries|
        invariant t == ProbationTo(tx.votings.probation, e, list.value, i)
      {
        var k := list.value.entries[i];
        if (e, k.address) !in t { t := t[(e, k.address) := ProbationRow(list.value.intensityRate, k.count)]; }
      }
      tx.votings := tx.votings.(probation := t);
    }

    /** filterStakingCandidates, unless there is no probation list. */
    method Filter(candidates: seq<Candidate>, list: Option<ProbationList>) returns (result: seq<Candidate>)
      requires RateFits(list)
      ensures FilteredBy(result, candidates, list)
    {
      hide SortedFrom, ByOperator;
      result := candidates;
      if list.Some? { result := FilterStakingCandidates(candidates, list.value); }
    }

    /** processStaking. */
    method ProcessStaking(tx: Tx, stored: seq<VotingRow>, chain: Chain, height: nat, p: Place, out: Outage)
      returns (outcome: Outcome, ghost f: Filling)
      requires p.epoch > 0 && p.prevHeight <= height && UniqueRows(tx.votings.result)
               && RateFits(chain.probation(p.epoch))
      requires FitsOffsets(|chain.candidates(p.prevHeight)|, READ_CANDIDATES_LIMIT)
      requires FitsOffsets(|chain.buckets(p.prevHeight)|, READ_BUCKETS_LIMIT)
      modifies tx`votings
      ensures outcome.Pass? ==>
                && StakingHandled(cfg, chain, height, p, stored, old(tx.votings), f, tx.votings)
                && tx.votings.probation == old(tx.votings.probation)
      ensures outcome.Fail? <==> StakingFails(cfg, chain, height, p, stored, old(tx.votings.result), out)
    {
      hide RowsClash, PortionsFail, OwnerNamesTo, Kept, StakingRows, UniqueRows, Aggregates, FilteredBy,
           ProbationAfter, FitsOffsets;
      f := NOTHING;
      ghost var start := tx.votings;
      if BucketsCall in out { return Fail(ClientError), f; }
      var voteBucketList := GetAllStakingBuckets(chain.buckets(p.prevHeight));
      if CandidatesCall in out { return Fail(ClientError), f; }
      var candidateList := GetAllStakingCandidates(chain.candidates(p.prevHeight));
      tx.votings := tx.votings.(buckets := tx.votings.buckets[height := voteBucketList]);
      tx.votings := tx.votings.(candidates := tx.votings.candidates[height := candidateList]);
      var list := chain.probation(p.epoch);
      var filtered := Filter(candidateList, list);
      ghost var rows;
      outcome, rows := UpdateStakingResult(tx, stored, chain, height, p, filtered, out);
      SomeClashIff(start.result, p.epoch, filtered, candidateList, list);
      if outcome.Fail? { return; }
      ghost var names, sums, rate, penalised;
      var aggregate;
      outcome, aggregate, names, sums, rate, penalised :=
        UpdateAggregateStaking(tx.votings.aggregate, chain, voteBucketList, filtered, p.epoch, list);
      if outcome.Fail? {
        EncodableNames(filtered, |filtered|);
        return;
      }
      f := Filling(filtered, names, sums, rate, penalised, rows);
      AggregatesFrom(start.aggregate, aggregate, chain, voteBucketList, p.epoch, list, f);
      tx.votings := tx.votings.(aggregate := aggregate);
    }

    /** updateVotingTables: inserts the election result. */
    method UpdateVotingTables(tx: Tx, chain: Chain, e: nat) returns (outcome: Outcome, ghost rows: seq<VotingRow>)
      requires UniqueRows(tx.votings.result)
      modifies tx`votings
      ensures outcome.Pass? ==>
                && ElectionRows(rows, chain.electionResult(e), e, |chain.electionResult(e)|)
                && tx.votings == old(tx.votings).(result := old(tx.votings.result) + rows)
                && UniqueRows(tx.votings.result)
      ensures outcome.Fail? <==> ElectionClashes(old(tx.votings.result), e, chain.electionResult(e))
    {
      hide UniqueRows, ElectionClashes, SameKey;
      rows := [];
      var result := chain.electionResult(e);
      ghost var before := tx.votings;
      assert before.result + [] == before.result;
      for i := 0 to |result|
        invariant ElectionRows(rows, result, e, i)
        invariant tx.votings == before.(result := before.result + rows)
        invariant UniqueRows(tx.votings.result)
      {
        var row := result[i].(epoch := e);
        outcome := InsertVotingResult(tx, row);
        if outcome.Fail? {
          ElectionRowTaken(before.result, rows, e, result, i);
          return;
        }
        assert before.result + rows + [row] == before.result + (rows + [row]);
        rows := rows + [row];
      }
      ElectedDoNotClash(before.result, rows, e, result);
      outcome := Pass;
    }

    /** HandleBlock. Only an epoch's first block under ROLLDPOS does anything. */
    method HandleBlock(tx: Tx, stored: seq<VotingRow>, chain: Chain, blk: Block, out: Outage)
      returns (outcome: Outcome, ghost f: Filling)
      requires cfg.epochCtx.Divisors() && cfg.epochCtx.dardanellesHeight > 0 && blk.height > 0
      requires UniqueRows(tx.votings.result) && forall e :: RateFits(chain.probation(e))
      requires forall h :: FitsOffsets(|chain.candidates(h)|, READ_CANDIDATES_LIMIT)
      requires forall h :: FitsOffsets(|chain.buckets(h)|, READ_BUCKETS_LIMIT)
      modifies tx`votings
      ensures outcome.Pass? ==>
                Handled(cfg, chain, blk.height, PlaceOf(cfg.epochCtx, blk.height), stored, old(tx.votings), f,
                        tx.votings)
      ensures outcome.Fail? <==>
                Fails(cfg, chain, blk.height, PlaceOf(cfg.epochCtx, blk.height), stored, old(tx.votings.result), out)
    {
      hide StakingFails, ElectionClashes, PlaceOf, StakingHandled, ProbationAfter, FitsOffsets, UniqueRows;
      f := NOTHING;
      var p := PlaceOf(cfg.epochCtx, blk.height);
      if !cfg.rolldpos || !p.starts { return Pass, f; }
      if ProbationCall in out { return Fail(ClientError), f; }
      var probationList := chain.probation(p.epoch);
      ghost var start := tx.votings;
      UpdateProbationListTable(tx, p.epoch, probationList);
      if p.staking {
        PrevNotAfter(cfg.epochCtx, blk.height);
        outcome, f := ProcessStaking(tx, stored, chain, blk.height, p, out);
        if outcome.Pass? {
          ProbationAside(cfg, chain, blk.height, p, stored, start, start.(probation := tx.votings.probation), f,
                         tx.votings);
        }
        return;
      }
      if p.epoch != 1 && GravityCall in out { return Fail(ClientError), f; }
      if ElectionCall in out { return Fail(ClientError), f; }
      ghost var rows;
      outcome, rows := UpdateVotingTables(tx, chain, p.epoch);
      f := NOTHING.(rows := rows);
    }
  }

  lemma Unencodable(t: seq<VotingRow>, e: nat, candidates: seq<Candidate>, i: nat)
    requires i < |candidates| && Encoded(candidates[i].name).Failure?
    ensures RowsClash(t, e, candidates)
  {
    hide Encoded, NameOr;
  }

  lemma RowTaken(t: seq<VotingRow>, rows: seq<VotingRow>, row: VotingRow, cfg: Config, chain: Chain, height: nat,
                 p: Place, stored: seq<VotingRow>, candidates: seq<Candidate>, i: nat)
    requires p.epoch > 0 && i < |candidates| && StakingRows(rows, cfg, chain, height, p, stored, candidates, i)
    requires row.epoch == p.epoch && row.delegateName == NameOr(candidates[i].name)
    requires exists j :: 0 <= j < |t + rows| && SameKey((t + rows)[j], row)
    ensures RowsClash(t, p.epoch, candidates)
  {}

  /** Rows that could be inserted do not clash. */
  lemma InsertedDoNotClash(t: seq<VotingRow>, rows: seq<VotingRow>, cfg: Config, chain: Chain, height: nat, p: Place,
                           stored: seq<VotingRow>, candidates: seq<Candidate>)
    requires p.epoch > 0 && AllEncodable(candidates, |candidates|) && UniqueRows(t + rows)
    requires StakingRows(rows, cfg, chain, height, p, stored, candidates, |candidates|)
    ensures !RowsClash(t, p.epoch, candidates)
  {
    RowNames(rows, cfg, chain, height, p, stored, candidates);
    hide StakingRows, Encoded, NameOr;
    assert forall i :: 0 <= i < |t| ==> (t + rows)[i] == t[i];
    assert forall j :: 0 <= j < |rows| ==> (t + rows)[|t| + j] == rows[j];
  }

  lemma RowNames(rows: seq<VotingRow>, cfg: Config, chain: Chain, height: nat, p: Place, stored: seq<VotingRow>,
                 candidates: seq<Candidate>)
    requires p.epoch > 0 && StakingRows(rows, cfg, chain, height, p, stored, candidates, |candidates|)
    ensures |rows| == |candidates|
    ensures forall j ::
              0 <= j < |rows| ==> rows[j].epoch == p.epoch && rows[j].delegateName == NameOr(candidates[j].name)
  {
    hide PortionsFor, NameOr;
  }

  lemma ElectedDoNotClash(t: seq<VotingRow>, rows: seq<VotingRow>, e: nat, result: seq<VotingRow>)
    requires ElectionRows(rows, result, e, |result|) && UniqueRows(t + rows)
    ensures !ElectionClashes(t, e, result)
  {
    assert forall i :: 0 <= i < |t| ==> (t + rows)[i] == t[i];
    assert forall j :: 0 <= j < |rows| ==> (t + rows)[|t| + j] == rows[j] == result[j].(epoch := e);
  }

  /** The filter's orders hold the same candidates. */
  lemma SameFiltered(a: seq<Candidate>, b: seq<Candidate>, candidates: seq<Candidate>, list: Option<ProbationList>,
                     i: nat)
    returns (j: nat)
    requires RateFits(list) && FilteredBy(a, candidates, list) && FilteredBy(b, candidates, list) && i < |a|
    ensures j < |b| && b[j] == a[i]
  {
    j := i;
    if list.Some? {
      hide ByOperator;
      var c := a[i];
      var k :| 0 <= k < |b| && b[k].operatorAddress == c.operatorAddress;
      j := k;
    }
  }

  lemma ClashInEveryOrder(t: seq<VotingRow>, e: nat, a: seq<Candidate>, b: seq<Candidate>, candidates: seq<Candidate>,
                          list: Option<ProbationList>)
    requires RateFits(list) && FilteredBy(a, candidates, list) && FilteredBy(b, candidates, list)
    requires RowsClash(t, e, a)
    ensures RowsClash(t, e, b)
  {
    if list.None? { return; }
    DifferentOperators(a, candidates, list.value);
    hide FilteredBy, Encoded, NameOr;
    if i :| 0 <= i < |a| && Encoded(a[i].name).Failure? {
      var j := SameFiltered(a, b, candidates, list, i);
    } else if i, j :| 0 <= i < |t| && 0 <= j < |a| && t[i].epoch == e && t[i].delegateName == NameOr(a[j].name) {
      var k := SameFiltered(a, b, candidates, list, j);
    } else {
      var i, j :| 0 <= i < j < |a| && NameOr(a[i].name) == NameOr(a[j].name);
      var x := SameFiltered(a, b, candidates, list, i);
      var y := SameFiltered(a, b, candidates, list, j);
      assert b[x].operatorAddress != b[y].operatorAddress;
      if x < y { assert RowsClash(t, e, b); } else { assert y < x; assert RowsClash(t, e, b); }
    }
  }

  lemma DifferentOperators(a: seq<Candidate>, candidates: seq<Candidate>, list: ProbationList)
    requires RateFits(Some(list)) && FilteredBy(a, candidates, Some(list))
    ensures UniqueOperators(a)
  {}

  /** Whether the rows clash does not depend on the order in which the filter leaves the candidates. */
  lemma SomeClashIff(t: seq<VotingRow>, e: nat, filtered: seq<Candidate>, candidates: seq<Candidate>,
                     list: Option<ProbationList>)
    requires RateFits(list) && FilteredBy(filtered, candidates, list)
    ensures (exists result :: FilteredBy(result, candidates, list) && RowsClash(t, e, result))
            <==> RowsClash(t, e, filtered)
  {
    hide FilteredBy, RowsClash;
    if result :| FilteredBy(result, candidates, list) && RowsClash(t, e, result) {
      ClashInEveryOrder(t, e, result, filtered, candidates, list);
    }
  }

  lemma ElectionRowTaken(t: seq<VotingRow>, rows: seq<VotingRow>, e: nat, result: seq<VotingRow>, i: nat)
    requires i < |result| && ElectionRows(rows, result, e, i)
    requires exists j :: 0 <= j < |t + rows| && SameKey((t + rows)[j], result[i].(epoch := e))
    ensures ElectionClashes(t, e, result)
  {
    var j :| 0 <= j < |t + rows| && SameKey((t + rows)[j], result[i].(epoch := e));
    if j >= |t| { assert rows[j - |t|] == result[j - |t|].(epoch := e); }
  }

  lemma {:induction false} EncodableNames(candidates: seq<Candidate>, n: nat)
    requires n <= |candidates| && AllEncodable(candidates, n)
    ensures OwnerNamesTo(candidates, n).Some?
  {
    hide Encoded;
    if n > 0 { EncodableNames(candidates, n - 1); }
  }

  lemma PrevNotAfter(e: EpochCtx, h: nat)
    requires e.Divisors() && e.dardanellesHeight > 0 && h > 0 && PlaceOf(e, h).starts
    ensures PlaceOf(e, h).prevHeight <= h
  {
    HeightStrictlyMonotone(e, PlaceOf(e, h).epoch - 1, PlaceOf(e, h).epoch);
  }

  /** The staking tables do not depend on the probation rows. */
  lemma ProbationAside(cfg: Config, chain: Chain, h: nat, p: Place, stored: seq<VotingRow>,
                       t: VotingsTables, t0: VotingsTables, f: Filling, t': VotingsTables)
    requires p.epoch > 0 && RateFits(chain.probation(p.epoch))
    requires t0 == t.(probation := t0.probation) && StakingHandled(cfg, chain, h, p, stored, t0, f, t')
    ensures StakingHandled(cfg, chain, h, p, stored, t, f, t')
  {
    hide Kept, StakingRows, UniqueRows, Aggregates, FilteredBy, RateFits, AllEncodable;
  }

  lemma AggregatesFrom(t: map<AggregateKey, int>, t': map<AggregateKey, int>, chain: Chain, buckets: seq<Bucket>,
                       e: nat, list: Option<ProbationList>, f: Filling)
    requires OwnerNamesTo(f.candidates, |f.candidates|) == Some(f.names)
    requires SumsTo(f.sums, chain, SelfStakes(f.candidates), buckets, f.names.Keys, |buckets|)
    requires PenalisedRight(f.candidates, list, f.rate, f.penalised)
    requires forall p :: p in f.sums ==> p.0 in f.names
    requires Inserted(t, t', e, f.names, f.sums, f.rate, f.penalised, f.sums.Keys)
    ensures Aggregates(t, t', chain, buckets, e, list, f)
  {
    hide OwnerNamesTo, SumsTo, PenalisedRight, Inserted;
  }

  lemma NoRows(cfg: Config, chain: Chain, height: nat, p: Place, stored: seq<VotingRow>, candidates: seq<Candidate>)
    requires p.epoch > 0
    ensures StakingRows([], cfg, chain, height, p, stored, candidates, 0)
  {}

  lemma OneMoreRow(rows: seq<VotingRow>, row: VotingRow, cfg: Config, chain: Chain, height: nat, p: Place,
                   stored: seq<VotingRow>, candidates: seq<Candidate>, i: nat)
    requires p.epoch > 0 && i < |candidates| && StakingRows(rows, cfg, chain, height, p, stored, candidates, i)
    requires row
             == StakingRow(p.epoch, candidates[i],
                           PortionsFor(cfg, chain, height, p, stored, candidates[i].ownerAddress))
    ensures StakingRows(rows + [row], cfg, chain, height, p, stored, candidates, i + 1)
  {
    hide PortionsFor, StakingRow;
  }

  lemma MapsRight(maps: PortionMaps, cfg: Config, chain: Chain, height: nat, p: Place, stored: seq<VotingRow>, a: Str)
    requires p.epoch > 0 && PortionsRight(maps, cfg, chain, height, p.prevHeight, p.epoch, stored)
    ensures maps.At(a) == PortionsFor(cfg, chain, height, p, stored, a)
  {}
}
