/** The tables the indexer writes, and what it reads from the chain and election services. */
module Schema {
  import opened Bytes
  import opened Wrappers
  import opened EpochContext

  /* ---------- configuration ---------- */

  datatype Config = Config(
    epochCtx: EpochCtx,
    rolldpos: bool,                       // ConsensusScheme == "ROLLDPOS"
    rangeQueryLimit: nat,
    gravityChainStartHeight: nat,
    numDelegatesForEpochReward: nat,
    numDelegatesForFoundationBonus: nat,
    productivityThreshold: nat,
    exemptCandidates: set<Str>,
    portionContractSet: bool,             // RewardPortionContract != ""
    portionContractDeployHeight: nat)

  /** Epochs begin and end where the code expects them to: the fork height is aligned, and staking starts with
      an epoch. */
  ghost predicate Sound(cfg: Config) {
    && cfg.epochCtx.Divisors() && cfg.epochCtx.dardanellesHeight > 0
    && cfg.epochCtx.ForkAligned() && SwitchAligned(cfg.epochCtx)
  }

  /* ---------- tables ---------- */

  datatype BlockRow = BlockRow(
    epoch: nat, height: nat, hash: Str,
    producerAddress: Str, producerName: Str,
    expectedAddress: Str, expectedName: Str)

  datatype Productivity = Productivity(production: int, expected: int)

  /** block_history and the three tables rebuilt from it. */
  datatype BlocksTables = BlocksTables(
    history: seq<BlockRow>,
    expectedProducer: map<(nat, Str), int>,
    producer: map<(nat, Str), int>,
    productivity: map<(nat, Str), Productivity>)

  datatype BalanceRow = BalanceRow(
    epoch: nat, height: nat, actionHash: Str, actionType: Str, from: Str, to: Str, amount: int)

  /** balance_history and the three tables rebuilt from it. */
  datatype AccountsTables = AccountsTables(
    balance: seq<BalanceRow>,
    inflow: map<(nat, Str), int>,
    outflow: map<(nat, Str), int>,
    income: map<(nat, Str), int>)

  datatype Reward = Reward(blockReward: int, epochReward: int, foundationBonus: int)

  datatype RewardRow = RewardRow(epoch: nat, actionHash: Str, rewardAddress: Str, candidateName: Str, reward: Reward)

  /** reward_history and account_reward. */
  datatype RewardsTables = RewardsTables(history: seq<RewardRow>, account: map<(nat, Str), Reward>)

  /** Reward portions in hundredths of a percent. */
  datatype Portions = Portions(blockReward: nat, epochReward: nat, foundation: nat)

  datatype VotingRow = VotingRow(
    epoch: nat, delegateName: Str, operatorAddress: Str, rewardAddress: Str,
    totalWeightedVotes: int, portions: Portions, stakingAddress: Str)

  datatype AggregateKey = AggregateKey(epoch: nat, candidateName: Str, voter: Str)

  datatype ProbationRow = ProbationRow(intensityRate: nat, count: nat)

  /** voting_result, aggregate_voting, probation_list and the raw staking records by epoch start height. */
  datatype VotingsTables = VotingsTables(
    result: seq<VotingRow>,
    aggregate: map<AggregateKey, int>,
    probation: map<(nat, Str), ProbationRow>,
    buckets: map<nat, seq<Bucket>>,
    candidates: map<nat, seq<Candidate>>)

  datatype Database = Database(
    blocks: BlocksTables, accounts: AccountsTables, rewards: RewardsTables, votings: VotingsTables)

  const EMPTY_DATABASE := Database(
    BlocksTables([], map[], map[], map[]),
    AccountsTables([], map[], map[], map[]),
    RewardsTables([], map[]),
    VotingsTables([], map[], map[], map[], map[]))

  /* ---------- the chain ---------- */

  datatype Transfer = Transfer(actionType: Str, sender: Str, recipient: Str, amount: int)

  datatype RewardKind = BlockReward | EpochReward | FoundationBonus

  datatype RewardLog = Malformed | Granted(kind: RewardKind, addr: Str, amount: int)

  datatype Receipt = Receipt(actionHash: Str, logs: seq<RewardLog>)

  /** A block, with the hashes of its grant-reward actions and its receipts. */
  datatype Block = Block(
    height: nat, hash: Str, producerAddress: Str, grantRewards: seq<Str>, receipts: seq<Receipt>)

  datatype Delegate = Delegate(operatorAddress: Str, rewardAddress: Str, name: Str)

  datatype Candidate = Candidate(
    name: Str, ownerAddress: Str, operatorAddress: Str, rewardAddress: Str,
    totalWeightedVotes: int, selfStakingTokens: Str, selfStakeBucketIdx: nat)

  datatype Bucket = Bucket(
    index: nat, candidateAddress: Str, owner: Str, stakedAmount: nat,
    stakeStartTime: int, unstakeStartTime: int, duration: nat, autoStake: bool)

  datatype ProbationEntry = ProbationEntry(address: Str, count: nat)

  datatype ProbationList = ProbationList(intensityRate: nat, entries: seq<ProbationEntry>)

  datatype PortionName = BlockPortion | EpochPortion | FoundationPortion | OtherProfile

  /** A ProfileUpdated log of the portion contract; None if its data cannot be unpacked. */
  datatype ProfileEvent = ProfileEvent(name: PortionName, delegate: Str, value: nat)

  datatype ProfileLog = ProfileLog(height: nat, event: Option<ProfileEvent>)

  /** What the services answer, as functions of epoch number or height. */
  datatype Chain = Chain(
    block: nat -> Block,
    transactionLog: nat -> seq<(Str, seq<Transfer>)>,
    activeProducers: nat -> seq<Str>,
    gravityHeight: nat -> nat,
    electionCandidates: nat -> seq<Delegate>,
    electionResult: nat -> seq<VotingRow>,
    candidates: nat -> seq<Candidate>,
    buckets: nat -> seq<Bucket>,
    probation: nat -> Option<ProbationList>,
    profileLogs: seq<ProfileLog>,
    bucketWeight: (Bucket, bool) -> nat)

  /** The calls made while one block is handled. An outage is the set of calls that fail this time. */
  datatype Call =
    | ActiveProducersCall | GravityCall | DelegatesCall
    | ActionsCall
    | RewardCandidatesCall
    | ProbationCall | BucketsCall | CandidatesCall | ElectionCall | ProfileLogsCall
    | TransactionLogCall

  type Outage = set<Call>
}
