/** Chains that meet the assumptions: one that can be indexed for ever, and one that cannot. */
module ExampleChains {
  import opened Bytes
  import opened Wrappers
  import opened Schema
  import opened EpochContext
  import opened DelegateName
  import opened Consistency
  import opened Progress
  import Paging
  import Rewards
  import RewardConservation
  import PortionHistory
  import VotingViews

  /** Every block is an epoch of its own, and staking is in force from the first. */
  ghost predicate BlockIsEpoch(cfg: Config) {
    var e := cfg.epochCtx;
    && e.numDelegates == 1 && e.numSubEpochs == 1 && e.numSubEpochsDardanelles == 1
    && e.dardanellesOn && e.dardanellesHeight == 1 && e.fairbankHeight == 0
    && cfg.rolldpos && cfg.portionContractSet && cfg.portionContractDeployHeight == 0
  }

  /** One delegate, and one address that is granted rewards, in every block. */
  ghost predicate LoneDelegate(chain: Chain, c: Candidate, a: Str) {
    && Encoded(c.name).Success?
    && forall h :: LoneBlock(chain.block(h), a) && Paging.Kept(chain.candidates(h), Paging.SelfStaked) == [c]
  }

  ghost predicate LoneBlock(blk: Block, a: Str) {
    Rewards.GrantedIn(blk) == {a} && !Rewards.Undecodable(blk)
  }

  lemma SoundFromStart(cfg: Config)
    requires BlockIsEpoch(cfg)
    ensures Sound(cfg) && PortionHistory.Carries(cfg)
  {
    FirstEpoch(cfg.epochCtx);
    DivDiv(0, cfg.epochCtx.numDelegates, cfg.epochCtx.numSubEpochs);
    DivDiv(0, cfg.epochCtx.numDelegates, cfg.epochCtx.numSubEpochsDardanelles);
    DivUnique(0, cfg.epochCtx.OldLength(), 0, 0);
  }

  lemma {:induction false} EpochsOfOne(cfg: Config, h: nat)
    requires BlockIsEpoch(cfg) && Sound(cfg)
    ensures cfg.epochCtx.GetEpochNumber(h) == h && cfg.epochCtx.GetEpochHeight(h) == h
  {
    FirstEpoch(cfg.epochCtx);
    if h > 1 {
      EpochsOfOne(cfg, h - 1);
      EpochLength(cfg.epochCtx, h - 1);
      AlignedRoundTrip(cfg.epochCtx, h);
    }
    hide EpochCtx.GetEpochHeight, EpochCtx.GetEpochNumber;
  }

  lemma EveryHeightStarts(cfg: Config, h: nat)
    requires BlockIsEpoch(cfg) && Sound(cfg) && h > 0
    ensures PlaceOf(cfg.epochCtx, h) == Place(h, true, h - 1, true)
  {
    EpochsOfOne(cfg, h);
    EpochsOfOne(cfg, h - 1);
    hide EpochCtx.GetEpochHeight, EpochCtx.GetEpochNumber, EpochCtx.ForkAligned;
  }

  lemma {:induction false} LoneGrants(cfg: Config, chain: Chain, c: Candidate, a: Str, e: nat, n: nat)
    requires BlockIsEpoch(cfg) && Sound(cfg) && LoneDelegate(chain, c, a)
    ensures RewardConservation.ChainGrantedTo(cfg, chain, e, n) == if 1 <= e <= n then {a} else {}
  {
    if n > 0 {
      LoneGrants(cfg, chain, c, a, e, n - 1);
      EveryHeightStarts(cfg, n);
      hide PlaceOf, Rewards.GrantedIn, Rewards.Undecodable, Encoded, Paging.Kept;
      assert LoneBlock(chain.block(n), a);
    }
  }

  lemma LoneEarner(cfg: Config, chain: Chain, c: Candidate, a: Str, e: nat)
    requires BlockIsEpoch(cfg) && Sound(cfg) && LoneDelegate(chain, c, a) && e > 0
    ensures !Nobody(cfg, chain, e)
    ensures if a == c.rewardAddress then SoleEarner(cfg, chain, e, a) else Unregistered(cfg, chain, e, a)
  {
    EpochsOfOne(cfg, e);
    hide EpochCtx.GetEpochHeight, EpochCtx.GetEpochNumber, EpochCtx.ForkAligned, Paging.Kept, LoneBlock, Encoded;
    assert PortionHistory.StakingEpoch(cfg.epochCtx, e);
    assert VotingViews.CandidatesAt(cfg, chain, e) == [c];
    assert [c][0].rewardAddress == c.rewardAddress;
  }

  lemma LoneReady(cfg: Config, chain: Chain, c: Candidate, a: Str, h: nat)
    requires BlockIsEpoch(cfg) && Sound(cfg) && LoneDelegate(chain, c, a) && h > 0
    ensures !Unready(cfg, chain, h)
  {
    EveryHeightStarts(cfg, h);
    if h > 1 { LoneEarner(cfg, chain, c, a, h - 1); }
    hide PlaceOf, Rewards.Undecodable, Rewards.GrantedIn, Paging.Kept, Nobody, SoleEarner, Unregistered, Encoded,
         EpochCtx.GetEpochHeight, EpochCtx.GetEpochNumber, EpochCtx.ForkAligned, SwitchAligned;
    assert LoneBlock(chain.block(h), a);
    assert Paging.Kept(chain.candidates(h - 1), Paging.SelfStaked) == [c];
  }

  lemma LoneHealthyAt(cfg: Config, chain: Chain, c: Candidate, h: nat)
    requires BlockIsEpoch(cfg) && Sound(cfg) && LoneDelegate(chain, c, c.rewardAddress) && h > 0
    ensures HealthyAt(cfg, chain, h)
  {
    EveryHeightStarts(cfg, h);
    LoneReady(cfg, chain, c, c.rewardAddress, h);
    hide PlaceOf, Unready, LoneDelegate, SoleEarner, RewardConservation.ChainGrantedTo, EpochCtx.GetEpochHeight,
         EpochCtx.GetEpochNumber, EpochCtx.ForkAligned, SwitchAligned;
    if h > 1 {
      LoneEarner(cfg, chain, c, c.rewardAddress, h - 1);
      LoneGrants(cfg, chain, c, c.rewardAddress, h - 1, h - 1);
    }
  }

  lemma LoneHealthy(cfg: Config, chain: Chain, c: Candidate)
    requires BlockIsEpoch(cfg) && Sound(cfg) && LoneDelegate(chain, c, c.rewardAddress)
    ensures Healthy(cfg, chain)
  {
    hide HealthyAt, BlockIsEpoch, LoneDelegate, Sound;
    forall h: nat | h > 0 ensures HealthyAt(cfg, chain, h) { LoneHealthyAt(cfg, chain, c, h); }
  }

  const SMALLEST_CONFIG := Config(EpochCtx(1, 1, 1, 1, 1, true, 0), true, 1, 0, 1, 1, 0, {}, true, 0)

  const LONE_CANDIDATE := Candidate([1], [2], [3], [4], 100, [5], 0)

  /** Every block grants a reward to this address. */
  function GrantingBlocks(a: Str): nat -> Block {
    (h: nat) => Block(h, [], [3], [[9]], [Receipt([9], [Granted(BlockReward, a, 10)])])
  }

  function LoneChain(a: Str): Chain {
    Chain(GrantingBlocks(a), (h: nat) => [], (e: nat) => [[3]], (h: nat) => 0, (h: nat) => [], (e: nat) => [],
          (h: nat) => [LONE_CANDIDATE], (h: nat) => [], (e: nat) => None, [],
          (b: Bucket, selfStake: bool) => 0)
  }

  lemma LoneCandidateKept(a: Str, h: nat)
    ensures Paging.Kept(LoneChain(a).candidates(h), Paging.SelfStaked) == [LONE_CANDIDATE]
  {
    var server := [LONE_CANDIDATE];
    assert Paging.KeptTo(server, Paging.SelfStaked, 0) == [];
    assert Paging.KeptTo(server, Paging.SelfStaked, 1) == [LONE_CANDIDATE];
  }

  lemma LoneBlocks(a: Str, h: nat)
    ensures LoneBlock(LoneChain(a).block(h), a)
  {
    var blk := LoneChain(a).block(h);
    var logs := blk.receipts[0].logs;
    assert logs == [Granted(BlockReward, a, 10)] && logs[0].addr == a;
    assert Rewards.LoggedTo(logs, 1) == {a};
    assert Rewards.GrantedTo(blk, 0) == {};
    assert blk.receipts[0].actionHash in blk.grantRewards;
    assert Rewards.GrantedTo(blk, 1) == {a};
  }

  lemma LoneChainOk(a: Str)
    ensures ChainOk(LoneChain(a)) && LoneDelegate(LoneChain(a), LONE_CANDIDATE, a)
  {
    hide LoneBlock, Paging.Kept;
    forall h ensures LoneBlock(LoneChain(a).block(h), a)
             ensures Paging.Kept(LoneChain(a).candidates(h), Paging.SelfStaked) == [LONE_CANDIDATE]
    {
      LoneBlocks(a, h);
      LoneCandidateKept(a, h);
    }
    assert VotingViews.Sane(LoneChain(a));
  }

  /** The assumptions can be met, staking and reward portions included, and on a healthy chain on which every
      block closes an epoch in which rewards were granted. */
  lemma AssumptionsCanBeMet() returns (cfg: Config, chain: Chain)
    ensures Sound(cfg) && PortionHistory.Carries(cfg) && cfg.rangeQueryLimit >= 1
    ensures ChainOk(chain) && Healthy(cfg, chain)
    ensures forall h: nat :: h > 0 ==> ClosesGrantingEpoch(cfg, chain, h)
  {
    cfg, chain := SMALLEST_CONFIG, LoneChain(LONE_CANDIDATE.rewardAddress);
    LoneChainOk(LONE_CANDIDATE.rewardAddress);
    SoundFromStart(cfg);
    LoneIsClosed(cfg, chain, LONE_CANDIDATE);
  }

  /** The block after this one closes an epoch in which rewards were granted. */
  ghost predicate ClosesGrantingEpoch(cfg: Config, chain: Chain, h: nat)
    requires Sound(cfg) && h > 0
  {
    var p, q := PlaceOf(cfg.epochCtx, h), PlaceOf(cfg.epochCtx, h + 1);
    cfg.rolldpos && q.starts && q.epoch == p.epoch + 1
      && RewardConservation.ChainGrantedTo(cfg, chain, p.epoch, h) != {}
  }

  lemma LoneIsClosed(cfg: Config, chain: Chain, c: Candidate)
    requires BlockIsEpoch(cfg) && Sound(cfg) && LoneDelegate(chain, c, c.rewardAddress)
    ensures Healthy(cfg, chain) && forall h: nat :: h > 0 ==> ClosesGrantingEpoch(cfg, chain, h)
  {
    LoneHealthy(cfg, chain, c);
    hide Healthy, LoneDelegate, PlaceOf, RewardConservation.ChainGrantedTo, EpochCtx.ForkAligned,
         EpochCtx.GetEpochHeight, EpochCtx.GetEpochNumber, SwitchAligned;
    forall h: nat | h > 0 ensures ClosesGrantingEpoch(cfg, chain, h) {
      EveryHeightStarts(cfg, h);
      EveryHeightStarts(cfg, h + 1);
      LoneGrants(cfg, chain, c, c.rewardAddress, h, h);
    }
  }

  /** On a chain that is ready for every block, a grant to an address that nobody registered is enough to stop the
      indexer for good, if it is the only one of its epoch. */
  lemma StrayGrantBlocksIndexing() returns (cfg: Config, chain: Chain)
    ensures Sound(cfg) && ChainOk(chain) && cfg.rangeQueryLimit >= 1
    ensures (forall h: nat :: h > 0 ==> !Unready(cfg, chain, h)) && Stuck(cfg, chain, 2)
  {
    cfg, chain := SMALLEST_CONFIG, LoneChain([7]);
    LoneChainOk([7]);
    SoundFromStart(cfg);
    StrayIsStuck(cfg, chain, LONE_CANDIDATE, [7]);
  }

  lemma StrayIsStuck(cfg: Config, chain: Chain, c: Candidate, a: Str)
    requires BlockIsEpoch(cfg) && Sound(cfg) && LoneDelegate(chain, c, a) && a != c.rewardAddress
    ensures (forall h: nat :: h > 0 ==> !Unready(cfg, chain, h)) && Stuck(cfg, chain, 2)
  {
    EveryHeightStarts(cfg, 2);
    LoneEarner(cfg, chain, c, a, 1);
    LoneGrants(cfg, chain, c, a, 1, 1);
    hide LoneDelegate, Unready, PlaceOf, RewardConservation.ChainGrantedTo, EpochCtx.ForkAligned, SwitchAligned,
         EpochCtx.GetEpochHeight, EpochCtx.GetEpochNumber, Unregistered, Rewards.Undecodable;
    forall h: nat | h > 0 ensures !Unready(cfg, chain, h) { LoneReady(cfg, chain, c, a, h); }
  }
}
