/** When indexing can and cannot go on: what keeps a block from being indexed although every call is answered,
    and chains on which nothing ever does. */
module Progress {
  import opened Bytes
  import opened Wrappers
  import opened Schema
  import opened EpochContext
  import opened DelegateName
  import opened Consistency
  import Paging
  import Accounts
  import BalanceHistory
  import RewardView
  import Probation
  import Ranking
  import Blocks
  import opened ClosingFailures
  import Rewards
  import RewardNames
  import RewardConservation
  import RewardPortions
  import PortionHistory
  import Votings
  import VotingViews

  /* ---------- what the chain can offer that no retry gets past ---------- */

  /** Nobody is stored for the epoch. */
  ghost predicate Nobody(cfg: Config, chain: Chain, e: nat)
    requires cfg.epochCtx.Divisors()
  {
    e == 0 || if PortionHistory.StakingEpoch(cfg.epochCtx, e) then VotingViews.CandidatesAt(cfg, chain, e) == []
              else chain.electionResult(e) == []
  }

  ghost predicate Encodable(candidates: seq<Candidate>) {
    Votings.AllEncodable(candidates, |candidates|)
  }

  ghost predicate SharedCode(candidates: seq<Candidate>) {
    exists i, j :: 0 <= i < j < |candidates| && Votings.NameOr(candidates[i].name) == Votings.NameOr(candidates[j].name)
  }

  ghost predicate SharedName(result: seq<VotingRow>) {
    exists i, j :: 0 <= i < j < |result| && result[i].delegateName == result[j].delegateName
  }

  /** The delegates of the epoch cannot be named: a name cannot be encoded, or the gravity chain height is 0. */
  ghost predicate NamesUnready(cfg: Config, chain: Chain, p: Place) {
    if p.staking then !Encodable(Paging.Kept(chain.candidates(p.prevHeight), Paging.SelfStaked))
    else p.epoch != 1 && chain.gravityHeight(p.prevHeight) == 0
  }

  /** The epoch cannot be opened: nobody was stored for the one before, two delegates share a name, or the
      reward portions cannot be read. */
  ghost predicate OpeningUnready(cfg: Config, chain: Chain, h: nat, p: Place)
    requires cfg.epochCtx.Divisors() && p.epoch > 0
  {
    || (p.epoch > 1 && Nobody(cfg, chain, p.epoch - 1))
    || (if p.staking then
          SharedCode(Paging.Kept(chain.candidates(p.prevHeight), Paging.SelfStaked)) || PortionsUnready(cfg, h, p)
        else SharedName(chain.electionResult(p.epoch)))
  }

  ghost predicate PortionsUnready(cfg: Config, h: nat, p: Place) {
    if h == cfg.epochCtx.FairbankEffectiveHeight() then !cfg.portionContractSet || cfg.portionContractDeployHeight >= h
    else p.epoch == 1
  }

  /** The block cannot be indexed, whatever the calls answer. */
  ghost predicate Unready(cfg: Config, chain: Chain, h: nat)
    requires Sound(cfg) && h > 0
  {
    var p := PlaceOf(cfg.epochCtx, h);
    || Rewards.Undecodable(chain.block(h))
    || (cfg.rolldpos && (NamesUnready(cfg, chain, p) || (p.starts && OpeningUnready(cfg, chain, h, p))))
  }

  /** The block closes an epoch in which rewards were granted and, by this order of ties, nobody is credited. */
  ghost predicate EmptyInsert(cfg: Config, db: Database, h: nat, rankings: Rewards.Rankings)
    requires Sound(cfg) && h > 0
  {
    var p := PlaceOf(cfg.epochCtx, h);
    var c := Rewards.ClosingAt(cfg, p, db.votings.result, db.rewards.history, db.blocks.history);
    && cfg.rolldpos && p.starts && p.epoch > 1
    && c.Addresses() != {} && Rewards.CreditsNothing(c, rankings)
  }

  /* ---------- no call fails: what is left ---------- */

  /** Epoch e is stored under ROLLDPOS as one of the two kinds. */
  lemma StoredEpoch(cfg: Config, chain: Chain, t: VotingsTables, open: nat, e: nat)
    requires Sound(cfg) && VotingViews.Sane(chain) && VotingViews.Views(cfg, chain, t, open) && cfg.rolldpos
             && 1 <= e <= open
    ensures RewardPortions.HasEpoch(t.result, e, |t.result|) <==> !Nobody(cfg, chain, e)
  {
    hide VotingViews.Sane, VotingViews.AllAggregatesRight, VotingViews.NamesRight, VotingViews.RawRight,
         VotingViews.ProbationRight, VotingViews.RowOfCandidate, EpochCtx.GetEpochHeight, Paging.Kept,
         VotingViews.Bounded;
    assert Votings.RateFits(chain.probation(e)) by { VotingRates(chain, e); }
    if PortionHistory.StakingEpoch(cfg.epochCtx, e) {
      StakingStored(cfg, chain, t, e);
    } else {
      ElectionStored(chain, t, e);
    }
  }

  lemma VotingRates(chain: Chain, e: nat)
    requires VotingViews.Sane(chain)
    ensures Votings.RateFits(chain.probation(e))
  {}

  lemma StakingStored(cfg: Config, chain: Chain, t: VotingsTables, e: nat)
    requires cfg.epochCtx.Divisors() && e > 0 && Votings.RateFits(chain.probation(e))
             && VotingViews.RowsRight(t.result, cfg, chain, e)
    ensures RewardPortions.HasEpoch(t.result, e, |t.result|) <==> VotingViews.CandidatesAt(cfg, chain, e) != []
  {
    var candidates := VotingViews.CandidatesAt(cfg, chain, e);
    if candidates != [] {
      VotingViews.RowFields(cfg, chain, e, candidates[0]);
      assert VotingViews.RowOfCandidate(cfg, chain, e, candidates[0]) in t.result;
    }
  }

  lemma ElectionStored(chain: Chain, t: VotingsTables, e: nat)
    requires VotingViews.ElectionRight(chain, t, e)
    ensures RewardPortions.HasEpoch(t.result, e, |t.result|) <==> chain.electionResult(e) != []
  {
    var result := chain.electionResult(e);
    if result != [] { assert result[0].(epoch := e) in t.result; }
  }

  lemma {:induction false} VotesOfEpoch(c: Rewards.Closing, n: nat)
    requires n <= |c.voting|
    ensures c.VotesTo(n) != map[] <==> RewardPortions.HasEpoch(c.voting, c.epoch, n)
  {
    if n > 0 {
      VotesOfEpoch(c, n - 1);
      var v := c.voting[n - 1];
      if v.epoch == c.epoch { assert v.delegateName in c.VotesTo(n); }
    }
  }

  lemma {:induction false} NamedIffEncodable(candidates: seq<Candidate>, n: nat)
    requires n <= |candidates|
    ensures Blocks.StakingNamesTo(candidates, n).Some? <==> Votings.AllEncodable(candidates, n)
    ensures RewardNames.StakingNamesTo(candidates, n).Some? <==> Votings.AllEncodable(candidates, n)
  {
    hide Encoded;
    if n > 0 { NamedIffEncodable(candidates, n - 1); }
  }

  /** The blocks protocol. */
  lemma BlocksObstacleIff(cfg: Config, chain: Chain, m: Blocks.Delegates, t: BlocksTables, last: nat)
    requires Sound(cfg) && ChainOk(chain) && Blocks.HistoryUpTo(cfg, chain, t.history, last)
    requires PlaceOf(cfg.epochCtx, last + 1).starts || m.names.None?
    ensures var p := PlaceOf(cfg.epochCtx, last + 1);
            Blocks.Fails(cfg, chain, p, chain.block(last + 1), m, t, {})
            <==> cfg.rolldpos && NamesUnready(cfg, chain, p)
  {
    var p := PlaceOf(cfg.epochCtx, last + 1);
    var candidates := Paging.Kept(chain.candidates(p.prevHeight), Paging.SelfStaked);
    NamedIffEncodable(candidates, |candidates|);
    assert forall h :: chain.block(h).height == h;
    hide PlaceOf, Sound, ChainOk, Blocks.StakingNamesTo, Encodable, Votings.AllEncodable, Paging.Kept,
         Blocks.DelegatesAt;
    forall i | 0 <= i < last ensures t.history[i].height == i + 1 {
      assert t.history[i] == Blocks.RowAt(cfg, chain, i + 1);
    }
  }

  /** The block rows of an epoch are there when it is closed. */
  lemma ProductionThere(cfg: Config, chain: Chain, history: seq<BlockRow>, last: nat, c: Rewards.Closing)
    requires Sound(cfg) && Blocks.HistoryUpTo(cfg, chain, history, last) && last > 0
    requires c.blocks == history && c.epoch == PlaceOf(cfg.epochCtx, last).epoch
    ensures c.Production() != map[]
  {
    LastRow(cfg, chain, history, last);
    hide *;
    RowCounts(c, last - 1);
  }

  lemma LastRow(cfg: Config, chain: Chain, history: seq<BlockRow>, last: nat)
    requires Sound(cfg) && Blocks.HistoryUpTo(cfg, chain, history, last) && last > 0
    ensures |history| == last && history[last - 1].epoch == PlaceOf(cfg.epochCtx, last).epoch
  {
    hide PlaceOf, Blocks.DelegatesAt;
    assert history[last - 1] == Blocks.RowAt(cfg, chain, last);
  }

  lemma RowCounts(c: Rewards.Closing, i: nat)
    requires i < |c.blocks| && c.blocks[i].epoch == c.epoch
    ensures c.Production() != map[]
  {
    assert c.blocks[i].expectedName in c.Production();
  }

  /** What closing an epoch finds: voting rows unless nobody was stored, and production figures. */
  lemma ClosingFinds(cfg: Config, chain: Chain, db: Database, last: nat, c: Rewards.Closing)
    requires Sound(cfg) && Blocks.HistoryUpTo(cfg, chain, db.blocks.history, last)
    requires VotingViews.Sane(chain) && VotingViews.Views(cfg, chain, db.votings, OpenEpoch(cfg, last))
    requires cfg.rolldpos && last > 0 && c.epoch == OpenEpoch(cfg, last)
    requires c.voting == db.votings.result && c.blocks == db.blocks.history
    ensures (Rewards.HasVotes(c) <==> !Nobody(cfg, chain, c.epoch)) && c.Production() != map[]
  {
    hide PlaceOf, Nobody, RewardPortions.HasEpoch, Blocks.HistoryUpTo, VotingViews.Views, VotingViews.Sane,
         Rewards.Closing.Production, Rewards.Closing.VotesTo, Sound;
    SoundDivides(cfg);
    OpenIsPositive(cfg, last);
    StoredEpoch(cfg, chain, db.votings, OpenEpoch(cfg, last), c.epoch);
    VotesOfEpoch(c, |c.voting|);
    ProductionThere(cfg, chain, db.blocks.history, last, c);
  }

  lemma OpenIsPositive(cfg: Config, last: nat)
    requires Sound(cfg) && last > 0
    ensures OpenEpoch(cfg, last) == PlaceOf(cfg.epochCtx, last).epoch && OpenEpoch(cfg, last) > 0
  {
    hide PlaceOf, EpochCtx.ForkAligned, SwitchAligned;
  }

  /** Closing an epoch. */
  lemma ClosingObstacleIff(cfg: Config, chain: Chain, db: Database, last: nat, rankings: Rewards.Rankings)
    requires Sound(cfg) && Blocks.HistoryUpTo(cfg, chain, db.blocks.history, last)
    requires VotingViews.Sane(chain) && VotingViews.Views(cfg, chain, db.votings, OpenEpoch(cfg, last))
    requires cfg.rolldpos && PlaceOf(cfg.epochCtx, last + 1).starts
    ensures var p := PlaceOf(cfg.epochCtx, last + 1);
            var c := Rewards.ClosingAt(cfg, p, db.votings.result, db.rewards.history, db.blocks.history);
            Rewards.ClosingFails(c, rankings)
            <==> (p.epoch > 1 && Nobody(cfg, chain, p.epoch - 1)) || EmptyInsert(cfg, db, last + 1, rankings)
  {
    var p := PlaceOf(cfg.epochCtx, last + 1);
    var c := Rewards.ClosingAt(cfg, p, db.votings.result, db.rewards.history, db.blocks.history);
    NextEpoch(cfg, last);
    hide PlaceOf, Nobody, Rewards.CreditsNothing, Rewards.NeedsSplit, Rewards.HasVotes, Blocks.HistoryUpTo,
         VotingViews.Views, VotingViews.Sane, Rewards.Closing.Production, Rewards.Closing.Addresses, Sound;
    if p.epoch > 1 {
      assert last > 0;
      ClosingFinds(cfg, chain, db, last, c);
    }
  }

  lemma RefreshObstacleIff(cfg: Config, chain: Chain, p: Place)
    ensures RewardNames.RefreshFails(cfg, chain, p, {}) <==> p.staking && NamesUnready(cfg, chain, p)
  {
    var candidates := Paging.Kept(chain.candidates(p.prevHeight), Paging.SelfStaked);
    NamedIffEncodable(candidates, |candidates|);
    hide RewardNames.StakingNamesTo, Votings.AllEncodable, Paging.Kept;
  }

  /** A list of candidates can be filtered. */
  lemma FilterPossible(candidates: seq<Candidate>, list: Option<ProbationList>) returns (result: seq<Candidate>)
    requires Votings.RateFits(list)
    ensures Votings.FilteredBy(result, candidates, list)
  {
    result := candidates;
    if list.Some? {
      Probation.ByOperatorIsKeyed(candidates, list.value, |candidates|);
      result := SortPossible(Probation.ByOperator(candidates, list.value));
    }
  }

  lemma SortPossible(byOperator: map<Str, Candidate>) returns (result: seq<Candidate>)
    requires forall op :: op in byOperator ==> byOperator[op].operatorAddress == op
    ensures Probation.SortedFrom(result, byOperator)
  {
    var votes := map op | op in byOperator :: byOperator[op].totalWeightedVotes;
    var sorted := Ranking.RankingExists(votes, votes.Keys);
    result := seq(|sorted|, i requires 0 <= i < |sorted| => byOperator[sorted[i]]);
    Probation.RankedAreSorted(sorted, votes, byOperator, result);
  }

  lemma Survivor(result: seq<Candidate>, candidates: seq<Candidate>, list: Option<ProbationList>, i: nat)
    returns (x: nat)
    requires Votings.RateFits(list) && VotingViews.Covers(result, candidates, list) && i < |candidates|
    ensures x < |result| && result[x] == VotingViews.AfterFilter(candidates[i], list)
  {
    hide VotingViews.AfterFilter, Probation.UniqueOperators, Probation.UniqueOwners;
    assert VotingViews.AfterFilter(candidates[i], list) in result;
    x :| x < |result| && result[x] == VotingViews.AfterFilter(candidates[i], list);
  }

  lemma Origin(result: seq<Candidate>, candidates: seq<Candidate>, list: Option<ProbationList>, x: nat)
    returns (i: nat)
    requires Votings.RateFits(list) && VotingViews.Covers(result, candidates, list) && x < |result|
    ensures i < |candidates| && result[x] == VotingViews.AfterFilter(candidates[i], list)
  {
    hide VotingViews.AfterFilter;
    var c := result[x];
    var k :| 0 <= k < |candidates| && c == VotingViews.AfterFilter(candidates[k], list);
    i := k;
  }

  lemma CoversEncodable(result: seq<Candidate>, candidates: seq<Candidate>, list: Option<ProbationList>)
    requires Votings.RateFits(list) && VotingViews.Covers(result, candidates, list)
    ensures Encodable(result) <==> Encodable(candidates)
  {
    hide VotingViews.AfterFilter, Encoded;
    NamesKept(candidates, list);
    if Encodable(result) {
      forall i | 0 <= i < |candidates| ensures Encoded(candidates[i].name).Success? {
        var x := Survivor(result, candidates, list, i);
      }
    }
    if Encodable(candidates) {
      forall x | 0 <= x < |result| ensures Encoded(result[x].name).Success? {
        var i := Origin(result, candidates, list, x);
      }
    }
  }

  lemma NamesKept(candidates: seq<Candidate>, list: Option<ProbationList>)
    requires Votings.RateFits(list)
    ensures forall i :: 0 <= i < |candidates| ==>
              var c := VotingViews.AfterFilter(candidates[i], list);
              c.name == candidates[i].name && c.operatorAddress == candidates[i].operatorAddress
  {
    forall i | 0 <= i < |candidates|
      ensures var c := VotingViews.AfterFilter(candidates[i], list);
              c.name == candidates[i].name && c.operatorAddress == candidates[i].operatorAddress
    {
      VotingViews.FilterKeeps(candidates[i], list);
    }
  }

  lemma SharedSurvives(result: seq<Candidate>, candidates: seq<Candidate>, list: Option<ProbationList>)
    requires Votings.RateFits(list) && VotingViews.Covers(result, candidates, list)
             && Probation.UniqueOperators(candidates)
    requires SharedCode(candidates)
    ensures SharedCode(result)
  {
    hide VotingViews.AfterFilter, Votings.NameOr;
    NamesKept(candidates, list);
    var i, j :| 0 <= i < j < |candidates| && Votings.NameOr(candidates[i].name) == Votings.NameOr(candidates[j].name);
    var x := Survivor(result, candidates, list, i);
    var y := Survivor(result, candidates, list, j);
    assert result[x].operatorAddress != result[y].operatorAddress;
    if x < y { assert SharedCode(result); } else { assert y < x; assert SharedCode(result); }
  }

  lemma SharedBefore(result: seq<Candidate>, candidates: seq<Candidate>, list: Option<ProbationList>)
    requires Votings.RateFits(list) && VotingViews.Covers(result, candidates, list)
    requires SharedCode(result)
    ensures SharedCode(candidates)
  {
    hide VotingViews.AfterFilter, Votings.NameOr;
    NamesKept(candidates, list);
    var x, y :| 0 <= x < y < |result| && Votings.NameOr(result[x].name) == Votings.NameOr(result[y].name);
    var i := Origin(result, candidates, list, x);
    var j := Origin(result, candidates, list, y);
    assert result[x].operatorAddress != result[y].operatorAddress;
    if i < j { assert SharedCode(candidates); } else { assert j < i; assert SharedCode(candidates); }
  }

  lemma ClashOfNames(t: seq<VotingRow>, e: nat, result: seq<Candidate>)
    requires forall i :: 0 <= i < |t| ==> t[i].epoch != e
    ensures Votings.RowsClash(t, e, result) <==> !Encodable(result) || SharedCode(result)
  {
    hide Encoded, Votings.NameOr;
  }

  /** The rows of an epoch that nothing is stored for yet clash exactly when the candidates' names do. */
  lemma ClashIff(t: seq<VotingRow>, e: nat, result: seq<Candidate>, candidates: seq<Candidate>,
                 list: Option<ProbationList>)
    requires Votings.RateFits(list) && Votings.FilteredBy(result, candidates, list)
             && VotingViews.CandidatesSane(candidates)
    requires forall i :: 0 <= i < |t| ==> t[i].epoch != e
    ensures Votings.RowsClash(t, e, result) <==> !Encodable(candidates) || SharedCode(candidates)
  {
    VotingViews.FilterCovers(result, candidates, list);
    CoversEncodable(result, candidates, list);
    ClashOfNames(t, e, result);
    hide VotingViews.Covers, Encodable, SharedCode, Votings.RowsClash, Votings.FilteredBy;
    if SharedCode(candidates) { SharedSurvives(result, candidates, list); }
    if SharedCode(result) { SharedBefore(result, candidates, list); }
  }

  lemma SomeClashIff(t: seq<VotingRow>, e: nat, candidates: seq<Candidate>, list: Option<ProbationList>)
    requires Votings.RateFits(list) && VotingViews.CandidatesSane(candidates)
    requires forall i :: 0 <= i < |t| ==> t[i].epoch != e
    ensures (exists result :: Votings.FilteredBy(result, candidates, list) && Votings.RowsClash(t, e, result))
            <==> !Encodable(candidates) || SharedCode(candidates)
  {
    hide Votings.FilteredBy, Votings.RowsClash, Encodable, SharedCode, VotingViews.CandidatesSane, Votings.RateFits;
    var possible := FilterPossible(candidates, list);
    ClashIff(t, e, possible, candidates, list);
    if result :| Votings.FilteredBy(result, candidates, list) && Votings.RowsClash(t, e, result) {
      ClashIff(t, e, result, candidates, list);
    }
  }

  /** Opening a staking epoch. */
  lemma StakingObstacleIff(cfg: Config, chain: Chain, t: VotingsTables, last: nat)
    requires Sound(cfg) && VotingViews.Sane(chain) && VotingViews.Views(cfg, chain, t, OpenEpoch(cfg, last))
    requires var p := PlaceOf(cfg.epochCtx, last + 1); cfg.rolldpos && p.starts && p.staking
    requires Votings.RateFits(chain.probation(PlaceOf(cfg.epochCtx, last + 1).epoch))
    ensures var p := PlaceOf(cfg.epochCtx, last + 1);
            Votings.StakingFails(cfg, chain, last + 1, p, t.result, t.result, {})
              || (p.epoch > 1 && Nobody(cfg, chain, p.epoch - 1))
            <==> NamesUnready(cfg, chain, p) || OpeningUnready(cfg, chain, last + 1, p)
  {
    var p := PlaceOf(cfg.epochCtx, last + 1);
    var candidates := Paging.Kept(chain.candidates(p.prevHeight), Paging.SelfStaked);
    var list := chain.probation(p.epoch);
    NextEpoch(cfg, last);
    NothingYet(cfg, chain, t, OpenEpoch(cfg, last));
    PortionsObstacleIff(cfg, chain, t, last);
    assert VotingViews.CandidatesSane(candidates);
    hide PlaceOf, OpenEpoch, Paging.Kept, Votings.FilteredBy, Votings.RowsClash, Encodable, SharedCode,
         VotingViews.CandidatesSane, VotingViews.Views, VotingViews.Sane, RewardPortions.PortionsFail,
         PortionsUnready, Nobody, Sound, Votings.RateFits;
    SomeClashIff(t.result, p.epoch, candidates, list);
  }

  lemma NothingYet(cfg: Config, chain: Chain, t: VotingsTables, open: nat)
    requires cfg.epochCtx.Divisors() && VotingViews.Sane(chain) && VotingViews.Views(cfg, chain, t, open)
    ensures forall i :: 0 <= i < |t.result| ==> 1 <= t.result[i].epoch <= open
  {
    hide VotingViews.Sane, VotingViews.EpochRight, VotingViews.ElectionRight, EpochCtx.GetEpochHeight;
    forall i | 0 <= i < |t.result| ensures 1 <= t.result[i].epoch <= open { assert t.result[i] in t.result; }
  }

  lemma PortionsObstacleIff(cfg: Config, chain: Chain, t: VotingsTables, last: nat)
    requires Sound(cfg) && VotingViews.Sane(chain) && VotingViews.Views(cfg, chain, t, OpenEpoch(cfg, last))
    requires var p := PlaceOf(cfg.epochCtx, last + 1); cfg.rolldpos && p.starts && p.staking
    ensures var p := PlaceOf(cfg.epochCtx, last + 1);
            RewardPortions.PortionsFail(cfg, last + 1, p.epoch, t.result, {})
              || (p.epoch > 1 && Nobody(cfg, chain, p.epoch - 1))
            <==> PortionsUnready(cfg, last + 1, p) || (p.epoch > 1 && Nobody(cfg, chain, p.epoch - 1))
  {
    var p := PlaceOf(cfg.epochCtx, last + 1);
    NextEpoch(cfg, last);
    NothingYet(cfg, chain, t, OpenEpoch(cfg, last));
    hide PlaceOf, VotingViews.Sane, VotingViews.Views, Nobody, Sound;
    if p.epoch > 1 { StoredEpoch(cfg, chain, t, OpenEpoch(cfg, last), p.epoch - 1); }
  }

  /** The voting protocol. */
  lemma VotingsObstacleIff(cfg: Config, chain: Chain, t: VotingsTables, last: nat)
    requires Sound(cfg) && VotingViews.Sane(chain) && VotingViews.Views(cfg, chain, t, OpenEpoch(cfg, last))
    requires cfg.rolldpos && PlaceOf(cfg.epochCtx, last + 1).starts
    requires Votings.RateFits(chain.probation(PlaceOf(cfg.epochCtx, last + 1).epoch))
    ensures var p := PlaceOf(cfg.epochCtx, last + 1);
            || Votings.Fails(cfg, chain, last + 1, p, t.result, t.result, {})
            || (p.epoch > 1 && Nobody(cfg, chain, p.epoch - 1)) || NamesUnready(cfg, chain, p)
            <==> NamesUnready(cfg, chain, p) || OpeningUnready(cfg, chain, last + 1, p)
  {
    var p := PlaceOf(cfg.epochCtx, last + 1);
    NextEpoch(cfg, last);
    NothingYet(cfg, chain, t, OpenEpoch(cfg, last));
    if p.staking { StakingObstacleIff(cfg, chain, t, last); }
    hide PlaceOf, VotingViews.Sane, VotingViews.Views, Nobody, Sound, Votings.StakingFails, PortionsUnready,
         SharedCode, Encodable, Paging.Kept, Votings.RateFits;
  }

  /** If every call is answered, an attempt at block last + 1 on a database reached at height `last` fails exactly
      when the chain has nothing to index it with, or when it closes an epoch whose rewards, by the order of ties,
      go to nobody. This holds whatever is in memory if the block starts an epoch, and for every block after a
      restart. */
  lemma BlockedIff(cfg: Config, chain: Chain, genesis: map<Str, int>, silent: set<nat>, db: Database, last: nat,
                   m: Memory, rankings: Rewards.Rankings)
    requires Sound(cfg) && ChainOk(chain) && Consistent(cfg, chain, genesis, silent, db, last)
    requires PlaceOf(cfg.epochCtx, last + 1).starts || m == NO_MEMORY
    ensures Blocked(cfg, chain, last + 1, {}, m, db, rankings)
            <==> Unready(cfg, chain, last + 1) || EmptyInsert(cfg, db, last + 1, rankings)
  {
    var p := PlaceOf(cfg.epochCtx, last + 1);
    ConsistentParts(cfg, chain, genesis, silent, db, last);
    BlocksObstacleIff(cfg, chain, m.delegates, db.blocks, last);
    RefreshObstacleIff(cfg, chain, p);
    VotingRates(chain, p.epoch);
    if cfg.rolldpos && p.starts {
      ClosingObstacleIff(cfg, chain, db, last, rankings);
      VotingsObstacleIff(cfg, chain, db.votings, last);
    }
    hide PlaceOf, Consistent, ChainOk, Sound, Blocks.Fails, Rewards.ClosingFails, RewardNames.RefreshFails,
         NamesUnready, Nobody, Votings.StakingFails, Votings.ElectionClashes, Rewards.Undecodable, Rewards.ClosingAt,
         Rewards.CreditsNothing, Rewards.Closing.Addresses, PortionsUnready, SharedCode, SharedName, Paging.Kept,
         VotingViews.Sane, VotingViews.Views, Blocks.HistoryUpTo;
    ClosingKeepsConfig(cfg, p, db);
  }

  /** So a restart can run into a failure exactly when the chain offers nothing, or some order of ties leaves the
      rewards to nobody. */
  lemma ObstacleIff(cfg: Config, chain: Chain, genesis: map<Str, int>, silent: set<nat>, db: Database, last: nat)
    requires Sound(cfg) && ChainOk(chain) && Consistent(cfg, chain, genesis, silent, db, last)
    ensures Obstacle(cfg, chain, last + 1, {}, db)
       <==> Unready(cfg, chain, last + 1) || MayBeEmpty(cfg, db, last + 1)
  {
    hide Consistent, ChainOk, Sound, Blocked, Unready, EmptyInsert, PlaceOf;
    var h := last + 1;
    forall rankings
      ensures Blocked(cfg, chain, h, {}, NO_MEMORY, db, rankings)
              <==> Unready(cfg, chain, h) || EmptyInsert(cfg, db, h, rankings)
    {
      BlockedIff(cfg, chain, genesis, silent, db, last, NO_MEMORY, rankings);
    }
    if Unready(cfg, chain, h) { assert Blocked(cfg, chain, h, {}, NO_MEMORY, db, map[]); }
  }

  ghost predicate MayBeEmpty(cfg: Config, db: Database, h: nat)
    requires Sound(cfg) && h > 0
  {
    exists rankings :: EmptyInsert(cfg, db, h, rankings)
  }

  /** Further calls that fail do not help. */
  lemma BlockedStays(cfg: Config, chain: Chain, h: nat, out: Outage, m: Memory, db: Database,
                     rankings: Rewards.Rankings)
    requires Sound(cfg) && ChainOk(chain) && h > 0 && Blocked(cfg, chain, h, {}, m, db, rankings)
    ensures Blocked(cfg, chain, h, out, m, db, rankings)
  {
    hide PlaceOf, ChainOk, Sound, Blocks.NamesFor, RewardNames.NamesAtPlace, Rewards.ClosingFails, Rewards.Undecodable,
         Rewards.ClosingAt, Votings.ElectionClashes, Votings.FilteredBy, Votings.RowsClash, RewardPortions.HasEpoch;
  }

  lemma ClosingKeepsConfig(cfg: Config, p: Place, db: Database)
    requires p.epoch > 0
    ensures Rewards.ClosingAt(cfg, p, db.votings.result, db.rewards.history, db.blocks.history).cfg == cfg
  {}

  lemma ConsistentParts(cfg: Config, chain: Chain, genesis: map<Str, int>, silent: set<nat>, db: Database, last: nat)
    requires Sound(cfg) && ChainOk(chain) && Consistent(cfg, chain, genesis, silent, db, last)
    ensures Blocks.HistoryUpTo(cfg, chain, db.blocks.history, last) && VotingViews.Sane(chain)
    ensures VotingViews.Views(cfg, chain, db.votings, OpenEpoch(cfg, last))
    ensures forall e ::
              Rewards.AddressesOf(db.rewards.history, e) == RewardConservation.ChainGrantedTo(cfg, chain, e, last)
  {
    hide PlaceOf, Blocks.HistoryUpTo, Blocks.Views, Accounts.Views, VotingViews.Views, VotingViews.Sane,
         BalanceHistory.BalanceUpTo, RewardView.SettledUpTo, RewardNames.HistoryNamed, RewardNames.NamesKnown,
         RewardConservation.Conserved, Rewards.AddressesOf, RewardConservation.ChainGrantedTo, Rewards.HistoryTotal,
         RewardConservation.ChainTotalTo;
  }

  /* ---------- chains on which nothing is in the way ---------- */

  /** Exactly one voting row of the epoch has this reward address. */
  ghost predicate SoleEarner(cfg: Config, chain: Chain, e: nat, a: Str)
    requires cfg.epochCtx.Divisors() && e > 0
  {
    if PortionHistory.StakingEpoch(cfg.epochCtx, e) then SoleCandidate(VotingViews.CandidatesAt(cfg, chain, e), a)
    else SoleRow(chain.electionResult(e), a)
  }

  ghost predicate SoleCandidate(candidates: seq<Candidate>, a: Str) {
    exists i :: 0 <= i < |candidates| && candidates[i].rewardAddress == a
                && forall j :: 0 <= j < |candidates| && candidates[j].rewardAddress == a ==> j == i
  }

  ghost predicate SoleRow(result: seq<VotingRow>, a: Str) {
    exists i :: 0 <= i < |result| && result[i].rewardAddress == a
                && forall j :: 0 <= j < |result| && result[j].rewardAddress == a ==> j == i
  }

  /** If rewards are granted in epoch e, up to height `last`, then also to an address with a sole delegate. */
  ghost predicate SomebodyEarns(cfg: Config, chain: Chain, e: nat, last: nat)
    requires cfg.epochCtx.Divisors() && cfg.epochCtx.dardanellesHeight > 0 && e > 0
  {
    var granted := RewardConservation.ChainGrantedTo(cfg, chain, e, last);
    granted == {} || exists a :: a in granted && SoleEarner(cfg, chain, e, a)
  }

  /** Every block can be indexed, and every epoch's rewards reach somebody. */
  ghost predicate Healthy(cfg: Config, chain: Chain)
    requires Sound(cfg)
  {
    forall h: nat :: h > 0 ==> HealthyAt(cfg, chain, h)
  }

  ghost predicate HealthyAt(cfg: Config, chain: Chain, h: nat)
    requires Sound(cfg) && h > 0
  {
    var p := PlaceOf(cfg.epochCtx, h);
    && !Unready(cfg, chain, h)
    && (cfg.rolldpos && p.starts && p.epoch > 1 ==> SomebodyEarns(cfg, chain, p.epoch - 1, h - 1))
  }

  lemma OneRowOneCandidate(c: Rewards.Closing, row: VotingRow)
    requires c.UniqueNames() && row in c.voting && row.epoch == c.epoch
    requires forall r :: r in c.voting && r.epoch == c.epoch && r.rewardAddress == row.rewardAddress ==> r == row
    ensures |c.Candidates(row.rewardAddress)| == 1
  {
    var names := c.Candidates(row.rewardAddress);
    Rewards.CandidatesAre(c, row.rewardAddress, |c.voting|);
    hide Rewards.Closing.CandidatesTo;
    assert row.delegateName in names;
    forall k | 0 <= k < |names| ensures names[k] == row.delegateName {
      assert names[k] in names;
      var i :| 0 <= i < |c.voting| && c.voting[i].epoch == c.epoch && c.voting[i].rewardAddress == row.rewardAddress
               && c.voting[i].delegateName == names[k];
      assert c.voting[i] in c.voting;
    }
    var second := if |names| > 1 then 1 else 0;
    assert names[0] == names[second];
  }

  lemma SoleElected(chain: Chain, t: VotingsTables, c: Rewards.Closing, a: Str)
    requires c.UniqueNames() && c.voting == t.result && VotingViews.ElectionRight(chain, t, c.epoch)
    requires SoleRow(chain.electionResult(c.epoch), a)
    ensures |c.Candidates(a)| == 1
  {
    hide Rewards.Closing.Candidates, Rewards.Closing.UniqueNames, VotingViews.ProbationRight;
    var result := chain.electionResult(c.epoch);
    var i :| 0 <= i < |result| && result[i].rewardAddress == a
             && forall j :: 0 <= j < |result| && result[j].rewardAddress == a ==> j == i;
    OneRowOneCandidate(c, result[i].(epoch := c.epoch));
  }

  lemma SoleStaked(cfg: Config, chain: Chain, t: VotingsTables, c: Rewards.Closing, a: Str)
    requires cfg.epochCtx.Divisors() && c.epoch > 0 && Votings.RateFits(chain.probation(c.epoch))
    requires c.UniqueNames() && c.voting == t.result && VotingViews.RowsRight(t.result, cfg, chain, c.epoch)
    requires SoleCandidate(VotingViews.CandidatesAt(cfg, chain, c.epoch), a)
    ensures |c.Candidates(a)| == 1
  {
    hide Rewards.Closing.Candidates, Rewards.Closing.UniqueNames, VotingViews.RowOfCandidate, VotingViews.CandidatesAt;
    var candidates := VotingViews.CandidatesAt(cfg, chain, c.epoch);
    forall j | 0 <= j < |candidates|
      ensures var row := VotingViews.RowOfCandidate(cfg, chain, c.epoch, candidates[j]);
              row.epoch == c.epoch && row.rewardAddress == candidates[j].rewardAddress
    {
      RowAddress(cfg, chain, c.epoch, candidates[j]);
    }
    var i :| 0 <= i < |candidates| && candidates[i].rewardAddress == a
             && forall j :: 0 <= j < |candidates| && candidates[j].rewardAddress == a ==> j == i;
    OneRowOneCandidate(c, VotingViews.RowOfCandidate(cfg, chain, c.epoch, candidates[i]));
  }

  lemma RowAddress(cfg: Config, chain: Chain, e: nat, c: Candidate)
    requires cfg.epochCtx.Divisors() && Votings.RateFits(chain.probation(e))
    ensures var row := VotingViews.RowOfCandidate(cfg, chain, e, c);
            row.epoch == e && row.rewardAddress == c.rewardAddress
  {
    hide VotingViews.CarriedPortions, VotingViews.AfterFilter;
    VotingViews.FilterKeeps(c, chain.probation(e));
  }

  /** A delegate that alone has its reward address is the sole candidate when the epoch is closed. */
  lemma SoleEarnerEarns(cfg: Config, chain: Chain, t: VotingsTables, open: nat, c: Rewards.Closing, a: Str)
    requires Sound(cfg) && VotingViews.Sane(chain) && VotingViews.Views(cfg, chain, t, open) && cfg.rolldpos
             && 1 <= c.epoch <= open
    requires c.UniqueNames() && c.voting == t.result && SoleEarner(cfg, chain, c.epoch, a)
    ensures |c.Candidates(a)| == 1
  {
    VotingRates(chain, c.epoch);
    hide VotingViews.Sane, VotingViews.AllAggregatesRight, VotingViews.NamesRight, VotingViews.RawRight,
         VotingViews.ProbationRight, VotingViews.RowsRight, EpochCtx.GetEpochHeight, VotingViews.CandidatesAt,
         VotingViews.Bounded, Rewards.Closing.Candidates, Rewards.Closing.UniqueNames, SoleCandidate, SoleRow;
    if PortionHistory.StakingEpoch(cfg.epochCtx, c.epoch) {
      SoleStaked(cfg, chain, t, c, a);
    } else {
      SoleElected(chain, t, c, a);
    }
  }

  /** On a healthy chain, whatever happened before: if every call is answered, the next block is indexed. */
  lemma HealthyAdvances(cfg: Config, chain: Chain, genesis: map<Str, int>, silent: set<nat>, db: Database, last: nat)
    requires Sound(cfg) && ChainOk(chain) && Consistent(cfg, chain, genesis, silent, db, last) && Healthy(cfg, chain)
    ensures !Obstacle(cfg, chain, last + 1, {}, db)
  {
    ObstacleIff(cfg, chain, genesis, silent, db, last);
    hide Consistent, ChainOk, Sound, Obstacle, Unready, EmptyInsert, PlaceOf, SomebodyEarns;
    var h := last + 1;
    assert HealthyAt(cfg, chain, h);
    forall rankings ensures !EmptyInsert(cfg, db, h, rankings) {
      NotEmpty(cfg, chain, genesis, silent, db, last, rankings);
    }
  }

  lemma NotEmpty(cfg: Config, chain: Chain, genesis: map<Str, int>, silent: set<nat>, db: Database, last: nat,
                 rankings: Rewards.Rankings)
    requires Sound(cfg) && ChainOk(chain) && Consistent(cfg, chain, genesis, silent, db, last)
    requires HealthyAt(cfg, chain, last + 1)
    ensures !EmptyInsert(cfg, db, last + 1, rankings)
  {
    var p := PlaceOf(cfg.epochCtx, last + 1);
    var c := Rewards.ClosingAt(cfg, p, db.votings.result, db.rewards.history, db.blocks.history);
    if cfg.rolldpos && p.starts && p.epoch > 1 && c.Addresses() != {} {
      ConsistentParts(cfg, chain, genesis, silent, db, last);
      NextEpoch(cfg, last);
      VotingsAreUsable(cfg, chain, db.votings, OpenEpoch(cfg, last), p, db.rewards.history, db.blocks.history);
      hide PlaceOf, Consistent, ChainOk, Sound, Unready, Rewards.AddressesOf, RewardConservation.ChainGrantedTo,
           SoleEarner, VotingViews.Sane, VotingViews.Views, Blocks.HistoryUpTo, Rewards.Closing.UniqueNames,
           Rewards.Closing.Candidates;
      var a :| a in c.Addresses() && SoleEarner(cfg, chain, c.epoch, a);
      SoleEarnerEarns(cfg, chain, db.votings, OpenEpoch(cfg, last), c, a);
      assert !Rewards.CreditsNothing(c, rankings);
    }
  }

  /* ---------- blocks that no attempt gets past ---------- */

  /** Nobody in the epoch has this reward address. */
  ghost predicate Unregistered(cfg: Config, chain: Chain, e: nat, a: Str)
    requires cfg.epochCtx.Divisors() && e > 0
  {
    if PortionHistory.StakingEpoch(cfg.epochCtx, e) then NoCandidate(VotingViews.CandidatesAt(cfg, chain, e), a)
    else NoRow(chain.electionResult(e), a)
  }

  ghost predicate NoCandidate(candidates: seq<Candidate>, a: Str) {
    forall i :: 0 <= i < |candidates| ==> candidates[i].rewardAddress != a
  }

  ghost predicate NoRow(result: seq<VotingRow>, a: Str) {
    forall i :: 0 <= i < |result| ==> result[i].rewardAddress != a
  }

  /** Rewards were granted in the epoch, up to height `last`, and nobody in it has an address that got any. */
  ghost predicate OnlyStrayGrants(cfg: Config, chain: Chain, e: nat, last: nat)
    requires cfg.epochCtx.Divisors() && cfg.epochCtx.dardanellesHeight > 0 && e > 0
  {
    var granted := RewardConservation.ChainGrantedTo(cfg, chain, e, last);
    granted != {} && forall a :: a in granted ==> Unregistered(cfg, chain, e, a)
  }

  /** What the chain holds makes every attempt at the block fail. */
  ghost predicate Stuck(cfg: Config, chain: Chain, h: nat)
    requires Sound(cfg) && h > 0
  {
    var p := PlaceOf(cfg.epochCtx, h);
    || Rewards.Undecodable(chain.block(h))
    || (p.starts && Unready(cfg, chain, h))
    || (cfg.rolldpos && p.starts && p.epoch > 1 && OnlyStrayGrants(cfg, chain, p.epoch - 1, h - 1))
  }

  /** What the tables hold makes closing the epoch fail, however ties are broken. */
  ghost predicate Unclosable(cfg: Config, db: Database, h: nat)
    requires Sound(cfg) && h > 0
  {
    var p := PlaceOf(cfg.epochCtx, h);
    cfg.rolldpos && p.starts
      && CannotCredit(Rewards.ClosingAt(cfg, p, db.votings.result, db.rewards.history, db.blocks.history))
  }

  lemma {:induction false} NoVotingRow(c: Rewards.Closing, a: Str, n: nat)
    requires n <= |c.voting| && forall r :: r in c.voting && r.epoch == c.epoch ==> r.rewardAddress != a
    ensures c.CandidatesTo(a, n) == []
  {
    if n > 0 {
      NoVotingRow(c, a, n - 1);
      assert c.voting[n - 1] in c.voting;
    }
  }

  lemma UnregisteredElected(chain: Chain, t: VotingsTables, c: Rewards.Closing, a: Str)
    requires c.UniqueNames() && c.voting == t.result && VotingViews.ElectionRight(chain, t, c.epoch)
    requires NoRow(chain.electionResult(c.epoch), a)
    ensures c.Candidates(a) == []
  {
    hide Rewards.Closing.CandidatesTo, Rewards.Closing.UniqueNames, VotingViews.ProbationRight;
    NoVotingRow(c, a, |c.voting|);
  }

  lemma UnregisteredStaked(cfg: Config, chain: Chain, t: VotingsTables, c: Rewards.Closing, a: Str)
    requires cfg.epochCtx.Divisors() && c.epoch > 0 && Votings.RateFits(chain.probation(c.epoch))
    requires c.UniqueNames() && c.voting == t.result && VotingViews.RowsRight(t.result, cfg, chain, c.epoch)
    requires NoCandidate(VotingViews.CandidatesAt(cfg, chain, c.epoch), a)
    ensures c.Candidates(a) == []
  {
    hide Rewards.Closing.CandidatesTo, Rewards.Closing.UniqueNames, VotingViews.RowOfCandidate,
         VotingViews.CandidatesAt;
    var candidates := VotingViews.CandidatesAt(cfg, chain, c.epoch);
    forall j | 0 <= j < |candidates|
      ensures VotingViews.RowOfCandidate(cfg, chain, c.epoch, candidates[j]).rewardAddress != a
    {
      RowAddress(cfg, chain, c.epoch, candidates[j]);
    }
    NoVotingRow(c, a, |c.voting|);
  }

  /** An address that nobody registered has no candidate when the epoch is closed. */
  lemma UnregisteredHasNone(cfg: Config, chain: Chain, t: VotingsTables, open: nat, c: Rewards.Closing, a: Str)
    requires Sound(cfg) && VotingViews.Sane(chain) && VotingViews.Views(cfg, chain, t, open) && cfg.rolldpos
             && 1 <= c.epoch <= open
    requires c.UniqueNames() && c.voting == t.result && Unregistered(cfg, chain, c.epoch, a)
    ensures c.Candidates(a) == []
  {
    VotingRates(chain, c.epoch);
    hide VotingViews.Sane, VotingViews.AllAggregatesRight, VotingViews.NamesRight, VotingViews.RawRight,
         VotingViews.ProbationRight, VotingViews.RowsRight, EpochCtx.GetEpochHeight, VotingViews.CandidatesAt,
         VotingViews.Bounded, Rewards.Closing.Candidates, Rewards.Closing.UniqueNames, NoCandidate, NoRow;
    if PortionHistory.StakingEpoch(cfg.epochCtx, c.epoch) {
      UnregisteredStaked(cfg, chain, t, c, a);
    } else {
      UnregisteredElected(chain, t, c, a);
    }
  }

  /** Stray grants alone leave nobody to credit. */
  lemma StrayIsUnclosable(cfg: Config, chain: Chain, genesis: map<Str, int>, silent: set<nat>, db: Database, last: nat)
    requires Sound(cfg) && ChainOk(chain) && Consistent(cfg, chain, genesis, silent, db, last)
    requires var p := PlaceOf(cfg.epochCtx, last + 1);
             cfg.rolldpos && p.starts && p.epoch > 1 && OnlyStrayGrants(cfg, chain, p.epoch - 1, last)
    ensures Unclosable(cfg, db, last + 1)
  {
    var p := PlaceOf(cfg.epochCtx, last + 1);
    var c := Rewards.ClosingAt(cfg, p, db.votings.result, db.rewards.history, db.blocks.history);
    ConsistentParts(cfg, chain, genesis, silent, db, last);
    NextEpoch(cfg, last);
    VotingsAreUsable(cfg, chain, db.votings, OpenEpoch(cfg, last), p, db.rewards.history, db.blocks.history);
    hide PlaceOf, Consistent, ChainOk, Sound, Rewards.AddressesOf, RewardConservation.ChainGrantedTo, Unregistered,
         VotingViews.Sane, VotingViews.Views, Blocks.HistoryUpTo, Rewards.Closing.UniqueNames,
         Rewards.Closing.Candidates, CannotCredit;
    forall a | a in c.Addresses() ensures c.Candidates(a) == [] {
      UnregisteredHasNone(cfg, chain, db.votings, OpenEpoch(cfg, last), c, a);
    }
    UnvotedCannotCredit(c);
  }

  lemma UndecodableBlocks(cfg: Config, chain: Chain, h: nat, out: Outage, m: Memory, db: Database,
                          rankings: Rewards.Rankings)
    requires Sound(cfg) && ChainOk(chain) && h > 0 && Rewards.Undecodable(chain.block(h))
    ensures Blocked(cfg, chain, h, out, m, db, rankings)
  {
    hide PlaceOf, ChainOk, Sound, Blocks.Fails, Rewards.Undecodable, Rewards.ClosingAt, Votings.Fails;
  }

  lemma UnreadyBlocks(cfg: Config, chain: Chain, genesis: map<Str, int>, silent: set<nat>, last: nat, out: Outage,
                      m: Memory, db: Database, rankings: Rewards.Rankings)
    requires Sound(cfg) && ChainOk(chain) && Consistent(cfg, chain, genesis, silent, db, last)
    requires PlaceOf(cfg.epochCtx, last + 1).starts && Unready(cfg, chain, last + 1)
    ensures Blocked(cfg, chain, last + 1, out, m, db, rankings)
  {
    BlockedIff(cfg, chain, genesis, silent, db, last, m, rankings);
    hide PlaceOf, Consistent, ChainOk, Sound, Blocked, Unready, EmptyInsert;
    BlockedStays(cfg, chain, last + 1, out, m, db, rankings);
  }

  /** What was credited shows that every address has a ranking. */
  lemma UnclosableBlocks(cfg: Config, chain: Chain, h: nat, out: Outage, m: Memory, db: Database, w: Work, m': Memory,
                         db': Database)
    requires Sound(cfg) && ChainOk(chain) && h > 0 && Indexed(cfg, chain, h, out, m, db, w, m', db')
    requires Unclosable(cfg, db, h)
    ensures Blocked(cfg, chain, h, out, m, db, w.settlement.rankings)
  {
    var p := PlaceOf(cfg.epochCtx, h);
    var c := Rewards.ClosingAt(cfg, p, db.votings.result, db.rewards.history, db.blocks.history);
    hide PlaceOf, ChainOk, Sound, Blocks.Fails, Blocks.HandledAt, RewardNames.NamesHandled, RewardNames.Named,
         RewardNames.RefreshFails, Rewards.Undecodable, Votings.Fails, Votings.Handled, Accounts.Handled,
         Rewards.CreditsNothing, Rewards.Closing.Addresses, Rewards.RanksAll, Rewards.Credits, Rewards.Closed,
         Rewards.HasVotes, Rewards.NeedsSplit, Rewards.GrantedRows;
    assert Rewards.CreditsAll(c, w.settlement.rankings, w.settlement.credits);
    CannotCreditFails(c, w.settlement.rankings);
  }

  /** An attempt at a stuck block, or at one that closes an unclosable epoch, would have been blocked. */
  lemma StuckBlocks(cfg: Config, chain: Chain, genesis: map<Str, int>, silent: set<nat>, last: nat, out: Outage,
                    m: Memory, db: Database, w: Work, m': Memory, db': Database)
    requires Sound(cfg) && ChainOk(chain) && Consistent(cfg, chain, genesis, silent, db, last)
    requires Indexed(cfg, chain, last + 1, out, m, db, w, m', db')
    requires Stuck(cfg, chain, last + 1) || Unclosable(cfg, db, last + 1)
    ensures Blocked(cfg, chain, last + 1, out, m, db, w.settlement.rankings)
  {
    var h := last + 1;
    var p := PlaceOf(cfg.epochCtx, h);
    hide PlaceOf, Consistent, ChainOk, Sound, Indexed, Blocked, Unready, Unclosable, Rewards.Undecodable,
         OnlyStrayGrants;
    if Rewards.Undecodable(chain.block(h)) {
      UndecodableBlocks(cfg, chain, h, out, m, db, w.settlement.rankings);
    } else if p.starts && Unready(cfg, chain, h) {
      UnreadyBlocks(cfg, chain, genesis, silent, last, out, m, db, w.settlement.rankings);
    } else {
      if !Unclosable(cfg, db, h) { StrayIsUnclosable(cfg, chain, genesis, silent, db, last); }
      UnclosableBlocks(cfg, chain, h, out, m, db, w, m', db');
    }
  }
}
