# The epoch-driven indexer, verified

This project models the analytics indexer as a state machine that consumes a chain block by block. Each block is
handled by five protocols inside one database transaction. The first block of every epoch also closes the epoch
before it, by materialising derived tables from base rows. The project proves what the tables hold after any run:
any batch sizes and tip heights, any failed calls and rolled-back blocks, any number of restarts.

The main results, from the outside in:

- `Indexer.Run`, `Indexer.Indexer.IndexInBatch`: every life of the indexer keeps `Consistency.Consistent`; a block is
  indexed exactly once and in order, a failed block leaves the database as it was, and a batch fails only for a reason
  (`Consistency.Obstacle`).
- `Indexer.Indexer.BuildIndex`: an attempt at a block fails exactly for a reason in `Consistency.Blocked`.
  `Progress.BlockedIff`: if every call is answered, that is when the chain offers nothing to index the block with
  (`Unready`, read off the chain alone) or its epoch's rewards, by the order of ties, go to nobody; it holds for every
  block that starts an epoch, and for all others after a restart. No run ever gets past a `Stuck` block, and on a healthy
  chain a run without failed calls reaches its highest tip (`Indexer.Run`).
- `Consistency.SameHeightSameTables`: two runs that reached the same height hold the same block tables, voting rows,
  probation, raw staking records and staking aggregates, and granted the same rewards, however they got there. They hold
  the same account_reward for an epoch with pairwise different votes, and the same flow tables if the same transaction
  logs could be fetched.
- `Consistency.ClosedEpochBalances`, `ClosedEpochCounted`, `ClosedEpochSettled`, `GrantsRecorded`, `StakingEpochStored`,
  `TransfersRecordedIff`: closed epochs balance (incomes, rewards, turns), reward_history holds what the chain's logs
  grant, account_reward equals a recomputation whose shares are written out (`RewardShares`), staking epochs store
  exactly the rows, sums and carried portions that the chain determines, and balance_history holds all transfers logged
  for a block exactly when its log could be fetched and overwrites nothing, or there were none.
- `SharedAddresses.EpochEarnersWithinIff`, `BonusEarnersWithinIff`: however ties are broken, at most the configured number
  of candidates of shared addresses qualify for epoch reward, or for foundation bonus, exactly when a condition on the
  votes, exemptions and production of the epoch holds. `ClosingFailures.EmptyInsertPossibleIff`, `EmptyInsertIff`,
  `CannotCreditIff`: when an epoch cannot be closed because nobody is credited.
- `EpochContext.EnclosureIff`, `RoundTripIff`, `EpochsCloseOnTimeIff`: the epoch arithmetic works exactly when the fork
  is aligned. `PortionHistory.CarriedEqualsScanIff`, `Probation.FilterKeepsAllIff`, `Probation.SamePenalisedIff`,
  `Paging.FitsOffsetsIff` and the two codec round trips are likewise exact.

## How it is laid out

| files | what they hold |
|---|---|
| `EpochContext` | epoch arithmetic across the Dardanelles fork, and where a height lies |
| `DelegateName` | the delegate name codec |
| `Sql`, `Schema`, `Store` | GROUP BY, INSERT IGNORE and sums over tables; the tables, the configuration and the chain; transactions |
| `Accounts`, `BalanceHistory`, `TransferRecords` | balance history, what a failed log call does to it, the tables rebuilt from it, and its rows against the logged transfers |
| `Blocks`, `Rotation` | block history, the tables rebuilt from it, fair rotation |
| `Ranking`, `RewardSplit`, `RewardShares`, `RewardNames`, `Rewards` | the reward breakdown, the shares it amounts to, and the reward protocol |
| `RewardConservation`, `GrantSums`, `RewardView`, `RankLimit`, `SharedAddresses`, `ClosingFailures`, `SameRewards` | what rewards conserve, reward_history against the chain's logs, account_reward as a view, how many candidates qualify, when an epoch cannot be closed, when its credits depend on the base rows alone |
| `Paging`, `Probation`, `RewardPortions`, `PortionHistory`, `Aggregation`, `Votings`, `VotingViews`, `StakingRecords` | staking: the tables, what they hold throughout a run, and their rows written out |
| `Consistency`, `Progress`, `ExampleChains`, `Indexer` | the invariant of every run, what can keep a run from going on, a chain that never does and one that does, and the driver |

The chain, the election service and the portion contract are one value, `Schema.Chain`: functions of height or epoch
number. Calls that fail are given by an `Outage`, one set for each attempt at a block. Tables without a unique key are
sequences of rows, tables with one are maps. Objects whose methods change fields in the original are classes here; their
methods are proved against specification functions or relations (`Handled`, `HandledAt`, `Closed`, `Rebuilt`), and the
lemmas are about those.

## What is assumed

- `Schema.Sound`: numDelegates and the sub-epoch counts are positive, dardanellesHeight >= 1, the fork height is aligned
  (`ForkAligned`, whose necessity is proved), and the Fairbank effective height starts an epoch (`SwitchAligned`, whose
  necessity is proved too). RangeQueryLimit >= 1.
- `Consistency.ChainOk`: the block at a height carries that height, amounts in reward logs and votes are not negative,
  candidates have unique operator and owner addresses, probation intensity is at most 100, and lists are short enough
  for 32-bit page offsets.
- For the comparison of stored portions with a full scan only (`StakingEpochStored`): the portion contract was deployed
  before staking began (`PortionHistory.Carries`), and the chain returns its logs in the order of their heights
  (`PortionHistory.InOrder`).
- These assumptions can be met together, with staking and reward portions from height 1 on, by a chain on which every
  block closes an epoch in which rewards were granted (`ExampleChains.AssumptionsCanBeMet`).
- GetRawBlocks returns exactly the requested range in order; commits succeed; handlers do not panic.
- Heights and amounts are unbounded integers: every epoch start that is computed for a height is at most that height, so
  64-bit wrap-around does not arise below the largest height.
- The probation rate (100 - intensity) / 100 is an exact fraction, reward portions are whole hundredths, and a bucket's
  vote weight is some non-negative number that depends on the bucket and on whether it is a self-stake.
- Address conversion and hexadecimal output of addresses are injective, so addresses stand for themselves. Names are
  compared byte by byte.

## Where the code differs from its comments

- The log ranges of the portion contract end at the epoch's first height, which they include; the comments speak of the
  height before it. The overlap of two ranges at their boundary is harmless (`PortionHistory.LastSplit`).
- A delegate that sits out a staking epoch loses the portions it set before, since they are carried by the stored rows
  only (`PortionHistory.AbsentForgets`).
- Ties in votes are broken anew for every shared reward address, so that more candidates of shared addresses than the
  configured limit can get epoch reward: two addresses with two candidates each, all with equal votes, and a limit of 1
  (`SharedAddresses.TwoPairsExceedLimit`; `EpochEarnersWithinIff` says exactly when it can happen). A sole candidate of
  an address gets all of its rewards without qualifying.
- A failed transaction-log call is taken for an empty log, and the block's transfers are never recorded
  (`BalanceHistory.OneTransferLost`). Of two logs of one action the second replaces the first.
  `BalanceHistory.LoggedRecordedIff` says exactly when all transfers are there.
- When no address of an epoch is credited with anything, the INSERT into account_reward has no rows and fails. If every
  address that was granted rewards in the epoch is one that nobody registered, the block that closes the epoch is never
  indexed (`Progress.Stuck`, `Indexer.Run`); one such grant is enough if it is the only one of its epoch
  (`ExampleChains.StrayGrantBlocksIndexing`). `ClosingFailures.EmptyInsertPossibleIff` and `CannotCreditIff` say when the
  INSERT can, and when it must, lack rows.
- A list of buckets or candidates whose page offsets pass 32 bits is read again from its beginning
  (`Paging.WrappedReadsWrong`).
- Candidates that share an operator address overwrite each other in the probation filter
  (`Probation.SharedOperatorLosesCandidate`).
- An operator-name map that a name which cannot be encoded has left half filled is never used, because no block of that
  epoch was committed (`Blocks.HandlingKeepsHistory`).

## Model

| member | source | states |
|---|---|---|
| EpochContext.NewEpochCtx | epochctx/epochctx.go:38-54 | the last option of each kind is in force, and there are at least as many candidate delegates as delegates |
| EpochContext.EpochCtx.GetEpochNumber | epochctx/epochctx.go:57-67 | the mutual recursion terminates; the closed form up to the fork height |
| EpochContext.EpochCtx.GetEpochHeight | epochctx/epochctx.go:70-80 | the mutual recursion terminates; the closed form up to the fork epoch |
| EpochContext.HeightStrictlyMonotone | epochctx/epochctx.go:70-80 | epoch starts grow strictly, aligned fork or not |
| EpochContext.NumberMonotone | epochctx/epochctx.go:57-67 | epoch numbers never fall as heights grow, aligned fork or not |
| EpochContext.EnclosureIff | epochctx/epochctx.go:57-80 | every height lies between its epoch's start and the next epoch's start exactly when (H-1) % (D*S) < D*S' |
| EpochContext.RoundTripIff | epochctx/epochctx.go:57-80 | every epoch number survives the round trip through its start height exactly under the same condition |
| EpochContext.MisalignedFork | epochctx/epochctx.go:57-80 | which heights and epochs go wrong when the fork is not aligned |
| EpochContext.EpochsCloseOnTimeIff | epochctx/epochctx.go:57-80 | no epoch is skipped or entered in the middle, for all heights, exactly when the fork is aligned |
| EpochContext.EpochLength | epochctx/epochctx.go:70-80 | an epoch has D*S heights before the fork epoch and D*S' from it on |
| EpochContext.FairbankSwitchStartsNextEpoch | epochctx/epochctx.go:88-90 | a Fairbank height that starts an epoch takes effect with the next epoch |
| EpochContext.SwitchConstantWithinEpochsIff | epochctx/epochctx.go:88-90 | the staking switch gives one answer within every epoch exactly when the effective height is 0 or starts an epoch |
| EpochContext.NextPlace | epochctx/epochctx.go:57-90 | the next height starts the next epoch or shares its epoch's number, predecessor and staking switch |
| DelegateName.EncodeDelegateName | indexprotocol/protocol.go:250-268 | the loops compute the padded code of a short name, keep a 24-byte name, and refuse every other length |
| DelegateName.DecodeDelegateName | indexprotocol/protocol.go:271-283 | the trimming loop computes the decoding that the round trips are about, errors included |
| DelegateName.DecodeAfterEncodeIff | indexprotocol/protocol.go:250-283 | decode after encode gives the name back exactly for readable names, over all strings |
| DelegateName.EncodeAfterDecodeIff | indexprotocol/protocol.go:250-283 | encode after decode gives the code back exactly for canonical codes, over all strings: 24 lower-case digits whose first pair other than "00" does not begin with 0 and whose last such pair is not "23" |
| DelegateName.EncodeIdempotent | indexprotocol/protocol.go:250-268 | a code has 24 characters and encodes to itself |
| DelegateName.EncodeInjective | indexprotocol/protocol.go:250-268 | readable names with one code are equal |
| DelegateName.EncodedLowerCase | indexprotocol/protocol.go:250-268 | the code of a short name is 24 lower-case hexadecimal digits |
| DelegateName.EncodedCharacters | indexprotocol/protocol.go:250-268 | the code of a short name, character by character: zeros, two digits for each byte up to the trailing hashes, zeros for the hashes |
| DelegateName.DecodedCharacters | indexprotocol/protocol.go:271-283 | what any string is decoded to, character by character, in either case; it fails exactly when a character is left over or is not a digit |
| Sql.GroupBy | indexprotocol/accounts/protocol.go:68-71 | one pass over the rows yields the grouped sums, with a group for every key and no other |
| Sql.GroupsAddUp | indexprotocol/rewards/protocol.go:59-60 | grouping loses nothing: group sums add up to the sum over all rows of the epoch |
| Sql.TotalIsSum | indexprotocol/accounts/protocol.go:68-71 | a group's total is the sum of the values at the positions of its rows, each taken once |
| Store.StoreBase.Begin | sql/storebase.go:113-118 | a transaction starts from the committed tables |
| Store.StoreBase.End | sql/storebase.go:119-138 | the work is kept as a whole if it returned no error, otherwise the database is as before |
| Accounts.JoinIncome | indexprotocol/accounts/protocol.go:72-78 | LEFT JOIN UNION RIGHT JOIN is a full outer join: one row for each address in either table, inflow minus outflow with 0 defaults |
| Accounts.InsertIncome | indexprotocol/accounts/protocol.go:72-78 | INSERT IGNORE in any row order gives one result |
| Accounts.AccountsProtocol.Initialize | indexprotocol/accounts/protocol.go:163-182 | writes one genesis row for each address, unless the committed table has some |
| Accounts.AccountsProtocol.RebuildAccountIncomeTable | indexprotocol/accounts/protocol.go:303-334 | three table updates in a row fill inflow, outflow and income of an epoch; nothing for epoch 0 |
| Accounts.AccountsProtocol.GetTransactionLog | indexprotocol/accounts/protocol.go:336-351 | transactions by action hash; a failed call gives an empty log and no error |
| Accounts.AccountsProtocol.HandleBlock | indexprotocol/accounts/protocol.go:185-216 | closes the last epoch at an epoch's first height, then appends every transfer of the block once |
| Accounts.HandlingKeepsViews | indexprotocol/accounts/protocol.go:185-216 | the three flow tables stay equal to a recomputation over all base rows of every closed epoch, and nothing stored changes |
| Accounts.LogMapHoldsLast | indexprotocol/accounts/protocol.go:336-351 | an action hash maps to the transactions of its last log |
| Accounts.LogMapKeys | indexprotocol/accounts/protocol.go:336-351 | an action hash is in the map exactly when it was logged |
| BalanceHistory.HandlingKeepsBalance | indexprotocol/accounts/protocol.go:206-213 | balance_history is the genesis rows and then, in height order, each height's transfers once, except for the heights whose log call failed, which have no rows |
| BalanceHistory.RecordedIff | indexprotocol/accounts/protocol.go:206-213 | a height's rows are the transfers in the map of its log, each once, exactly when the log was fetched or the map has none |
| BalanceHistory.LoggedRecordedIff | indexprotocol/accounts/protocol.go:206-213 | a height's rows are all transfers logged for its block, each once, exactly when there were none, or the log was fetched and no log with transfers is followed by another of the same action |
| BalanceHistory.OneTransferLost | indexprotocol/accounts/protocol.go:336-351 | a block whose one transfer is recorded if the call succeeds and lost if it fails |
| BalanceHistory.SameFlowTables | indexprotocol/accounts/protocol.go:185-216 | histories that miss the same heights give the same inflow, outflow and income |
| BalanceHistory.GenesisStays | indexprotocol/accounts/protocol.go:165-173 | a restart finds the genesis rows, so that they are written once in any run |
| Accounts.IncomesSumToZero | indexprotocol/accounts/protocol.go:303-334 | in every closed epoch the incomes over all addresses sum to 0 |
| Accounts.BalanceSumIsNetFlow | queryprotocol/chainmeta/protocol.go:260-276 | an address's summed income is its net flow over the closed epochs |
| Accounts.FlowsRowByRow | indexprotocol/accounts/protocol.go:68-78 | an address has an inflow row of a closed epoch exactly when some row pays it, with the sum of the amounts of these rows; outflow and income likewise |
| TransferRecords.RecordedByColumn | indexprotocol/accounts/protocol.go:285-301 | all transfers are recorded exactly when every row is there as often as logged transfers have its type, sender, recipient and amount |
| TransferRecords.GenesisPays | indexprotocol/accounts/protocol.go:163-182 | the genesis rows pay each address its amount, from nowhere, before epoch 1 |
| Blocks.JoinProductivity | indexprotocol/blocks/protocol.go:89-92 | one row for each expected producer, with 0 where it produced nothing |
| Blocks.BlocksProtocol.UpdateActiveBlockProducers | indexprotocol/blocks/protocol.go:463-484 | the field holds the epoch's producers, or is untouched when the call fails |
| Blocks.BlocksProtocol.UpdateStakingDelegates | indexprotocol/blocks/protocol.go:444-461 | the field holds the encoded names by operator; when and how it can be left otherwise |
| Blocks.BlocksProtocol.UpdateDelegates | indexprotocol/blocks/protocol.go:392-442 | memory holds the epoch's delegates on success; fails exactly for the listed reasons |
| Blocks.BlocksProtocol.RebuildProductivityTable | indexprotocol/blocks/protocol.go:486-509 | three table updates in a row fill expected, produced and joined counts of an epoch |
| Blocks.BlocksProtocol.UpdateBlockHistory | indexprotocol/blocks/protocol.go:357-390 | appends the row exactly when its height is new |
| Blocks.BlocksProtocol.HandleBlock | indexprotocol/blocks/protocol.go:198-286 | refreshes memory when due, closes the last epoch, and appends the block's row written with the memory in force; fails exactly for the listed reasons |
| Blocks.HandlingKeepsViews | indexprotocol/blocks/protocol.go:211-215 | productivity_history stays equal to a recount over all block rows of every closed epoch, and nothing stored changes |
| Blocks.HandlingKeepsHistory | indexprotocol/blocks/protocol.go:206-282 | restarts are invisible: block_history is exactly what the chain determines, and memory always fits the next block |
| Rotation.FairRotation | indexprotocol/blocks/protocol.go:278-282 | with a full roster each delegate is expected exactly S, or from the fork epoch S', times in a closed epoch of any start height |
| Rotation.ExpectedAddUpToLength | indexprotocol/blocks/protocol.go:85-92 | expected turns of a closed epoch add up to its length, full roster or not |
| Rotation.RowInEpoch | indexprotocol/blocks/protocol.go:357-390 | every column of a block's row: the epoch its height lies in, the producer with its name, and the operator whose turn the height is with its name |
| Rotation.ProductivityBlockByBlock | indexprotocol/blocks/protocol.go:87-92 | a name has a row of a closed epoch exactly when it had a turn, with the number of heights that its operators produced and the number of their turns |
| Rotation.ProducedAddUpToLength | indexprotocol/blocks/protocol.go:87-89 | produced blocks of a closed epoch add up to its length |
| Rotation.RosterOfEpoch | indexprotocol/blocks/protocol.go:392-484 | the epoch's delegates are the active producers, with the names read at the start of the epoch before |
| Rotation.NamedByStaking | indexprotocol/blocks/protocol.go:444-461 | an operator goes by the encoded name of the last candidate that it operates |
| Rotation.NamedByElection | indexprotocol/blocks/protocol.go:392-442 | before staking it goes by the name of the last delegate that it operates |
| Ranking.SortByVotes | indexprotocol/rewards/protocol.go:560-570 | lists every candidate once, never fewer votes before more, in whatever order the map yields them |
| Ranking.RanksBijective | indexprotocol/rewards/protocol.go:571-574 | ranks are a bijection onto 1..n |
| Ranking.RankBounds | indexprotocol/rewards/protocol.go:568-574 | a rank exceeds the number of strictly better candidates and not the number of at least equal ones |
| Ranking.RankExact | indexprotocol/rewards/protocol.go:568-574 | without ties the rank is one more than the number of candidates with more votes, in every call |
| RankLimit.StaysWithinIff | indexprotocol/rewards/protocol.go:560-574 | one ranking for each group of candidates: at most the limit get within it, for all rankings, exactly when no number of votes lets the groups reach beyond it |
| SharedAddresses.LimitHoldsIff | indexprotocol/rewards/protocol.go:560-574 | one ranking for each shared address, and any choice among its candidates: for all rankings at most the limit of them rank within it exactly when, at every number of votes that can be within it, the better ones and the places each address can fill from its tied ones are at most the limit |
| SharedAddresses.LimitExceeded | indexprotocol/rewards/protocol.go:560-574 | otherwise some way to break ties, address by address, ranks more of them within the limit |
| SharedAddresses.EpochEarnersWithinIff | indexprotocol/rewards/protocol.go:579-604 | for all ways to break ties at most the configured number of candidates of shared addresses earn epoch reward, by rank, exemption and productivity, exactly when the condition holds for those not exempt and productive |
| SharedAddresses.BonusEarnersWithinIff | indexprotocol/rewards/protocol.go:599-604 | the same for foundation bonus and those not exempt |
| SharedAddresses.NoTieIsEnough | indexprotocol/rewards/protocol.go:595-603 | the condition holds if no tie lies across the limit |
| SharedAddresses.DistinctVotesDoNotTie | indexprotocol/rewards/protocol.go:595-603 | the condition holds for both limits if votes are pairwise different |
| SharedAddresses.OneSharedAddressIsEnough | indexprotocol/rewards/protocol.go:454-471 | the condition holds if there is one shared address only, ties or not |
| SharedAddresses.TwoPairsExceedLimit | indexprotocol/rewards/protocol.go:454-471 | an epoch with two shared addresses that is closed with more candidates earning epoch reward than the limit |
| RewardSplit.SplitConserves | indexprotocol/rewards/protocol.go:610-616 | floored proportional shares sum to at most the total, short by less than the number of earners |
| RewardSplit.EvenSplit | indexprotocol/rewards/protocol.go:617-619 | an even split falls short by exactly the total modulo the count |
| RewardSplit.BreakdownConserves | indexprotocol/rewards/protocol.go:579-625 | every kind's shares stay within its total, with the exact or bounded shortfall |
| RewardSplit.SingleCandidateGetsAll | indexprotocol/rewards/protocol.go:442-447 | the pass-through of a sole candidate agrees with the general split when it qualifies |
| RewardSplit.GivesNothingIff | indexprotocol/rewards/protocol.go:579-625 | the split has no rows exactly when, for every kind, nobody earns or every share rounds to 0 |
| RewardSplit.SharesMonotone | indexprotocol/rewards/protocol.go:606-625 | among the candidates of an address more weight never earns less |
| RewardShares.SharesAreDue | indexprotocol/rewards/protocol.go:579-625 | the split gives each candidate block reward by its produced blocks over those of all, epoch reward by its votes over those of all within the rank limit, not exempt and not below the productivity threshold, and foundation bonus in equal parts, all rounded down |
| RewardNames.HandlingKeepsNames | indexprotocol/rewards/protocol.go:341-402 | restarts and failed attempts are invisible in candidate_name: the names in force for a committed block are those of its own epoch, and memory fits the next block or the retry |
| RewardNames.AppendKeepsNamed | indexprotocol/rewards/protocol.go:281-304 | every row of reward_history carries the first name that its own epoch gives to its address |
| RewardNames.RowFromStaking | indexprotocol/rewards/protocol.go:382-402 | in a staking epoch that is the encoded name of the first candidate with the address, read at the start of the epoch before |
| RewardNames.RowFromElection | indexprotocol/rewards/protocol.go:341-380 | before staking it is the name of the first delegate with the address, in the election at the gravity height of that start |
| Rewards.GetRewardInfoFromReceipt | indexprotocol/rewards/protocol.go:306-339 | the addresses of the logs, each with the sum of the amounts of its logs of each kind, over their positions; fails exactly on a malformed log |
| Rewards.RewardsProtocol.UpdateCandidateRewardAddress | indexprotocol/rewards/protocol.go:341-380 | memory holds the epoch's names by reward address, from staking or from the election; fails exactly for the listed reasons, and what a failure leaves behind |
| Rewards.RewardsProtocol.UpdateStakingCandidateRewardAddress | indexprotocol/rewards/protocol.go:382-402 | the encoded names by reward address in the order of the candidates; fails exactly when the call fails or a name cannot be encoded |
| Rewards.RewardsProtocol.GetVotingInfo | indexprotocol/rewards/protocol.go:480-513 | candidates by reward address and votes by candidate; fails exactly when the epoch has no voting rows |
| Rewards.RewardsProtocol.GetProductivity | indexprotocol/rewards/protocol.go:515-549 | the epoch's counts, every expected count at least 1; fails exactly when there are none |
| Rewards.ProductionCounted | indexprotocol/rewards/protocol.go:64-68 | a grouped expected count is at least 1, so that no productivity ratio divides by 0 |
| Rewards.RewardsProtocol.AssignRanks | indexprotocol/rewards/protocol.go:571-574 | the loop computes the ranks that the ranking lemmas are about |
| Rewards.RewardsProtocol.Denominators | indexprotocol/rewards/protocol.go:579-604 | the three denominators are the sums of the weights of those who earn, which `RewardShares` writes out |
| Rewards.RewardsProtocol.BreakdownRewards | indexprotocol/rewards/protocol.go:551-627 | computes the split for some ranking of the epoch's votes, whose shares `RewardShares.SharesAreDue` writes out |
| Rewards.DisjointPay | indexprotocol/rewards/protocol.go:437-471 | no two addresses credit the same candidate, so that INSERT IGNORE drops no row |
| Rewards.RewardsProtocol.RebuildAccountRewardTable | indexprotocol/rewards/protocol.go:404-478 | account_reward gains exactly the credits of all addresses; each error exactly when its condition holds |
| Rewards.RewardsProtocol.UpdateRewardHistory | indexprotocol/rewards/protocol.go:281-304 | one row for each address, each address once, in any order, with the action's hash, the amounts and the first name that memory has for the address |
| Rewards.RewardsProtocol.LogRewards | indexprotocol/rewards/protocol.go:183-208 | every appended row holds what one of the block's grant-reward receipts grants to its address, and together they add up to the grants; fails exactly on a malformed log |
| Rewards.RewardsProtocol.HandleBlock | indexprotocol/rewards/protocol.go:164-209 | refreshes the names when due, closes the last epoch's accounts at an epoch's first height, then records the block's grants; fails exactly for the listed reasons |
| Rewards.AddressConserves | indexprotocol/rewards/protocol.go:437-471 | an address's candidates are credited at most its total, exactly that if there is one, short by less than their number if there are several that earn |
| Rewards.CreditsAddUp | indexprotocol/rewards/protocol.go:437-477 | the credits of an epoch add up to what its addresses paid out |
| RewardView.HandlingKeepsSettled | indexprotocol/rewards/protocol.go:164-209 | over every run account_reward stays equal, for every closed epoch, to the credits recomputed from all voting, reward and block rows of the epoch, for some order of ties |
| RewardView.SettledByAddress | indexprotocol/rewards/protocol.go:437-471 | a settled epoch's rows are, address by address, what its own candidates are due under a ranking of the epoch's votes, with the gap to what was granted, and nothing else: a sole candidate gets everything, otherwise each its due share of every kind, written out |
| ClosingFailures.SoleCandidateCredits | indexprotocol/rewards/protocol.go:442-447 | an address with a sole candidate always yields a row: the candidate is credited with all of it |
| ClosingFailures.EmptyInsertPossibleIff | indexprotocol/rewards/protocol.go:437-477 | the INSERT can lack rows exactly when every address, by a ranking of its own, can credit nobody |
| ClosingFailures.EmptyInsertIff | indexprotocol/rewards/protocol.go:437-477 | with different votes the tables before the call decide whether the INSERT has rows |
| ClosingFailures.CannotCreditIff | indexprotocol/rewards/protocol.go:437-477 | with different votes closing fails however it is tried exactly when the tables give nobody anything |
| ClosingFailures.UnvotedCannotCredit | indexprotocol/rewards/protocol.go:437-477 | so it is if rewards were granted to addresses without voting rows only |
| SameRewards.SameSettlement | indexprotocol/rewards/protocol.go:404-478 | with different votes the credits of an epoch do not depend on the order of rows, of map entries or of ties |
| RewardConservation.CreditsConserve | indexprotocol/rewards/protocol.go:404-478 | the credits of an epoch stay within the sum of reward_history for it |
| RewardConservation.HandlingKeepsAccounts | indexprotocol/rewards/protocol.go:164-209 | over every run each row of reward_history is written for a receipt of its epoch, the rows have the addresses of the chain's logs and add up to them by epoch, kind and address, closed epochs conserve, and nothing stored changes |
| GrantSums.AddressGranted | indexprotocol/rewards/protocol.go:281-339 | by epoch and address each column of reward_history adds up to the amounts of all logs of its kind, over their positions on the chain, and the epoch is closed with these sums |
| GrantSums.EpochGranted | indexprotocol/rewards/protocol.go:281-339 | by epoch each column adds up to the amounts of all logs of its kind in the receipts of grant-reward actions at the epoch's heights, whatever their addresses |
| GrantSums.AddressHasRow | indexprotocol/rewards/protocol.go:183-208 | an address has a row of an epoch exactly when some log of the epoch grants it something |
| Paging.ReadAll | indexprotocol/protocol.go:126-146 | paging terminates, the 32-bit offset never wraps, and the result is the whole list filtered in order |
| Paging.GetAllStakingBuckets | indexprotocol/protocol.go:126-146 | all buckets but the unstaked ones, in order |
| Paging.GetAllStakingCandidates | indexprotocol/protocol.go:188-208 | all candidates but those with self-stake "0", in order |
| Paging.FitsOffsetsIff | indexprotocol/protocol.go:126-146 | the loop ends with the filtered list, for all lists of a length and all filters, exactly when the page offsets of that length fit in 32 bits |
| Paging.WrappedReadsWrong | indexprotocol/protocol.go:126-146 | for a longer list the loop does not return the filtered list whenever it ends |
| Paging.KeptByPosition | indexprotocol/protocol.go:126-146 | the filtered list holds exactly the entries that pass, each once and in order |
| Probation.FilterStakingCandidates | indexprotocol/votings/probation.go:159-197 | one candidate for each operator, by decreasing votes, with votes lowered for the listed operators only |
| Probation.PenaltyLowers | indexprotocol/votings/probation.go:166-185 | the penalty never raises votes and never makes them negative |
| Probation.FilterReorders | indexprotocol/votings/probation.go:159-197 | with unique operators the result is a reordering of all filtered candidates |
| Probation.FilterKeepsAllIff | indexprotocol/votings/probation.go:159-197 | the filter keeps all candidates exactly when operators are unique |
| Probation.SharedOperatorLosesCandidate | indexprotocol/votings/probation.go:186-194 | of two candidates with one operator the later one survives |
| Probation.ConvertProbationListToLocal | indexprotocol/votings/probation.go:230-245 | the entries in their order with the list's rate; nil stays nil |
| Probation.StakingProbationListToMap | indexprotocol/votings/probation.go:199-212 | an owner is penalised exactly when one of its operators is listed; the rate is then 100 minus the intensity |
| Probation.SamePenalised | indexprotocol/votings/stakingprotocol.go:123-129 | with unique owners the filter and the owner-keyed map penalise the same candidates |
| Probation.SamePenalisedIff | indexprotocol/votings/stakingprotocol.go:123-182 | they agree for every list exactly when no owner has candidates with different operators |
| RewardPortions.GetLog | indexprotocol/votings/stakingprotocol.go:427-472 | for each portion and delegate the value set last in the range, both ends included |
| RewardPortions.GetLastEpochPortion | indexprotocol/votings/stakingprotocol.go:474-512 | the stored portions by staking address; fails exactly when the epoch has no rows |
| RewardPortions.GetAllPortions | indexprotocol/votings/stakingprotocol.go:302-360 | a scan from deployment in the first staking epoch, afterwards the stored value overlaid by later logs; fails exactly for the listed reasons |
| RewardPortions.LastIsLast | indexprotocol/votings/stakingprotocol.go:427-472 | the value is that of the last log of the portion and delegate within the range, both ends included |
| PortionHistory.InitOnce | indexprotocol/votings/stakingprotocol.go:311-338 | the initialising branch is taken in exactly one epoch, the first staking one, and every later one follows a staking epoch |
| PortionHistory.LastSplit | indexprotocol/votings/stakingprotocol.go:331-357 | a range of logs can be scanned in two parts that share their boundary |
| PortionHistory.CarriedIsLastSince | indexprotocol/votings/stakingprotocol.go:302-360 | what is carried is the last value logged since the last epoch that the address missed |
| PortionHistory.CarriedEqualsScanIff | indexprotocol/votings/stakingprotocol.go:302-360 | the incremental form equals a full scan for all logs exactly when the address was a candidate in every staking epoch before |
| PortionHistory.AbsentForgets | indexprotocol/votings/stakingprotocol.go:331-357 | a delegate that sat out one epoch has portion 0 although the contract says otherwise |
| Aggregation.OwnerAddressToNameMap | indexprotocol/votings/stakingprotocol.go:414-425 | encoded names by owner; fails exactly when a name cannot be encoded |
| Aggregation.SelfStakeIndexMap | indexprotocol/votings/stakingprotocol.go:406-412 | the set of self-stake bucket indices |
| Aggregation.SumBuckets | indexprotocol/votings/stakingprotocol.go:131-165 | one sum for each known candidate and voter with a bucket |
| Aggregation.InsertAggregates | indexprotocol/votings/stakingprotocol.go:177-199 | INSERT IGNORE of the sums, scaled for the penalised, in any order |
| Aggregation.NothingDropped | indexprotocol/votings/stakingprotocol.go:177-199 | with different names every sum has exactly its row |
| Aggregation.UpdateAggregateStaking | indexprotocol/votings/stakingprotocol.go:123-199 | names, sums, penalties and inserts together; fails only on a name that cannot be encoded |
| Aggregation.GetProbationList | indexprotocol/votings/probation.go:94-121 | the epoch's probation rows in any order, nil if there are none |
| Aggregation.GetStakingBucketInfoByEpoch | indexprotocol/votings/stakingprotocol.go:222-300 | the buckets of the first candidate with the name, one by one, scaled by the table's penalties |
| Aggregation.SummedAgainstBuckets | indexprotocol/votings/stakingprotocol.go:177-182 | truncating each bucket against truncating the sum: equal without a penalty, with one short by at most 99 hundredths for each bucket |
| Aggregation.InfoForEveryBucket | indexprotocol/votings/stakingprotocol.go:262-297 | a voter is returned exactly when it has a bucket |
| Votings.ProbationRows | indexprotocol/votings/probation.go:57-68 | the probation rows of an epoch are its listed addresses with the list's rate and the count of the first entry |
| Votings.VotingsProtocol.InsertVotingResult | indexprotocol/votings/protocol.go:76-86 | the row is appended exactly when no row has its epoch and name |
| Votings.VotingsProtocol.UpdateStakingResult | indexprotocol/votings/stakingprotocol.go:75-121 | one row for each candidate with its portions; fails exactly when portions cannot be read, a name cannot be encoded or two rows share a name |
| Votings.VotingsProtocol.UpdateProbationListTable | indexprotocol/votings/probation.go:57-68 | INSERT IGNORE of the list, nothing for nil |
| Votings.VotingsProtocol.ProcessStaking | indexprotocol/votings/stakingprotocol.go:40-73 | raw records, voting rows and aggregates of the epoch together; fails exactly for the listed reasons, whatever order the filter leaves |
| Votings.VotingsProtocol.UpdateVotingTables | indexprotocol/votings/protocol.go:618-689 | the election result as rows of the epoch; fails exactly when two rows share a name |
| Votings.VotingsProtocol.HandleBlock | indexprotocol/votings/protocol.go:274-315 | acts only on an epoch's first block under ROLLDPOS, through staking from the switch on and the election before; fails exactly for the listed reasons |
| VotingViews.PortionsAreCarried | indexprotocol/votings/stakingprotocol.go:302-360 | overlaying logs on the rows stored for the last epoch gives the carried portions |
| VotingViews.FilterCovers | indexprotocol/votings/stakingprotocol.go:58-63 | after the filter every candidate is still there once, with its votes after the penalty |
| VotingViews.EpochBecomesRight | indexprotocol/votings/stakingprotocol.go:40-73 | a staking epoch's first block stores the rows, names, sums and penalties its candidates are due, and no other row of the epoch |
| VotingViews.EpochStaysRight | indexprotocol/votings/protocol.go:274-315 | later epochs leave it so |
| VotingViews.HandlingKeepsViews | indexprotocol/votings/protocol.go:274-315 | over every run all epochs opened so far are stored right, without stray rows, and nothing stored changes |
| VotingViews.AggregateAgainstQuery | indexprotocol/votings/stakingprotocol.go:222-300 | for a stored epoch the aggregate row equals the buckets that a query returns, or exceeds them by less than their number under probation; there is a row exactly when the query returns a bucket |
| VotingViews.StoredPortionsEqualScan | indexprotocol/votings/stakingprotocol.go:75-121 | a stored row of a delegate that never sat out an epoch holds the portions of a full scan |
| StakingRecords.RowByColumn | indexprotocol/votings/stakingprotocol.go:75-121 | every column of a stored staking row: encoded name, operator, reward and owner address, votes reduced if the operator is listed, and the three carried portions; a row for every candidate and no other |
| StakingRecords.AggregateByBucket | indexprotocol/votings/stakingprotocol.go:123-199 | a stored aggregate is the sum of the weights of the voter's buckets for the candidate, each counted as a self-stake exactly when some candidate stakes for itself with it, reduced if the operator is listed |
| StakingRecords.QueryByBucket | indexprotocol/votings/stakingprotocol.go:262-297 | the query returns, in order, owner and weight of every bucket staked for the candidate, with the self-stake counted the same way, reduced if the operator is listed |
| StakingRecords.RawByPosition | indexprotocol/votings/stakingprotocol.go:40-58 | the raw records are, in order, the buckets not unstaked and the candidates with a self-stake at the start of the epoch before |
| StakingRecords.ProbationByEntry | indexprotocol/votings/probation.go:57-68 | the probation rows are the listed addresses with the list's rate and the count of their first entry |
| Consistency.IndexingStaysConsistent | indexservice/indexer.go:305-317 | indexing the next block leads from a consistent database to a consistent one in which nothing stored has changed |
| Consistency.SameHeightSameTables | indexservice/indexer.go:237-277 | block tables, granted rewards, voting rows, probation, raw staking records and staking aggregates depend on the height reached only, and so does account_reward of an epoch with different votes; the flow tables also depend on which log calls failed |
| Consistency.TransfersRecordedIff | indexservice/indexer.go:305-317 | in every reachable database all transfers logged for a block are recorded, each once, exactly when there were none, or the log was fetched and overwrites nothing |
| Consistency.ClosedEpochSettled | indexservice/indexer.go:305-317 | in every reachable database account_reward holds, under rankings of the epoch's votes, what each granted address's candidates are due, share by share, and nothing else |
| Consistency.ClosedEpochBalances | indexservice/indexer.go:305-317 | in every reachable database every closed epoch balances: incomes cancel out, credits stay within the chain's grants, expected turns and produced blocks fill the epoch |
| Consistency.GrantsRecorded | indexservice/indexer.go:305-317 | in every reachable database reward_history holds exactly what the chain's reward logs grant, row by row and as sums by epoch, kind and address |
| Consistency.ClosedEpochCounted | indexservice/indexer.go:305-317 | in every reachable database productivity_history counts the blocks and turns of each name, and the flow tables sum the rows of each address, for every closed epoch |
| Consistency.StakingEpochStored | indexservice/indexer.go:305-317 | in every reachable database every staking epoch is stored right, with scanned portions for those never absent |
| Progress.BlockedIff | indexservice/indexer.go:305-317 | when every call is answered, an attempt at the next block fails exactly when names, candidates, portions or logs of the chain do not allow it, or by this order of ties the rewards of the epoch it closes go to nobody; for every memory at an epoch's start, and after a restart anywhere |
| Progress.ObstacleIff | indexservice/indexer.go:305-317 | so an attempt after a restart can fail exactly in these cases, for some order of ties |
| Progress.StuckBlocks | indexservice/indexer.go:305-317 | no attempt gets past a block that the chain or the tables make impossible, whatever is in memory and whatever the calls answer |
| Progress.StoredEpoch | indexprotocol/votings/protocol.go:274-315 | an opened epoch has voting rows exactly when it has candidates, or an election result |
| Progress.SoleEarnerEarns | indexprotocol/rewards/protocol.go:442-447 | a delegate that alone has its reward address on the chain is the sole candidate when the epoch is closed |
| Progress.HealthyAdvances | indexservice/indexer.go:305-317 | on a healthy chain, whatever happened before, the next block is indexed if every call is answered |
| Progress.UnregisteredHasNone | indexprotocol/rewards/protocol.go:480-513 | an address that nobody has on the chain has no candidate when the epoch is closed |
| ExampleChains.AssumptionsCanBeMet | indexservice/indexer.go:305-317 | there is a healthy chain on which every block closes an epoch with rewards |
| ExampleChains.StrayGrantBlocksIndexing | indexprotocol/rewards/protocol.go:437-477 | there is a chain that is ready for every block, and whose second block is never indexed because of a grant to an address that nobody registered |
| Indexer.MaxBlockHeight | queryprotocol/chainmeta/chainmetautil/chainmetautil.go:26-55 | the highest height in the table, 0 if it is empty |
| Indexer.LastIsMax | indexservice/indexer.go:126-130 | the maximum is the height reached, so that a restart resumes after it |
| Indexer.Indexer.constructor | indexservice/indexer.go:83-101 | an indexer with empty memory at height 0 |
| Indexer.Indexer.Initialize | indexservice/indexer.go:177-189 | writes genesis rows into an empty database and changes no other |
| Indexer.Indexer.Start | indexservice/indexer.go:104-130 | resumes at the height reached with a database that is unchanged unless it was empty |
| Indexer.Indexer.HandleAll | indexservice/indexer.go:212-234 | the protocols in their order, stopping at the first that fails; fails exactly for the listed reasons |
| Indexer.Indexer.BuildIndex | indexservice/indexer.go:305-317 | a block is indexed as a whole or leaves the database as it was; memory fits the next block or the retry; it fails exactly for the listed reasons, always at a stuck block, and on a healthy chain only if a call does |
| Indexer.Indexer.IndexInBatch | indexservice/indexer.go:237-277 | passes with the tip reached, or stops at a block with a reason; blocks up to it are indexed once, nothing stored changes, and the loop ends |
| Indexer.FailedStaysFit | indexservice/indexer.go:305-317 | memory left by a failed attempt never shows in a later row |
| Indexer.Run | indexservice/indexer.go:104-168 | from an empty database on, any sequence of tips, failures and restarts keeps everything above; the highest tip is reached unless a batch failed, and always on a healthy chain if no call fails; no stuck height is ever reached |

## Left out

- Indexer.Indexer.IndexInBatch: a failed batch names a reason for which an attempt after a restart fails; in the middle of an epoch the attempt itself may have been saved by what was in memory.
- Store.StoreBase.End: commit errors and recovered panics, which Transact does not return.
- Blocks.BlocksProtocol.UpdateBlockHistory: action counters, gas and the timestamp of the row.
- Blocks.BlocksProtocol.HandleBlock: action counters, gas and the timestamp of the row.
- Aggregation.UpdateAggregateStaking: the voting_meta row and its failures.
- Aggregation.GetStakingBucketInfoByEpoch: of each bucket info only the voter and the weighted votes, without remaining times and start times.
- Votings.VotingsProtocol.ProcessStaking: the voting_meta row.
- Votings.VotingsProtocol.UpdateVotingTables: the legacy result is an oracle, without its own aggregates and filter.
- Votings.VotingsProtocol.HandleBlock: before staking, the election result is an oracle, while the unique index, probation rows and epoch order are kept.
- The GraphQL layer, configuration files, the ticker, goroutines and the terminate channel: batches run one after another.
- MySQL itself: schema creation, connection handling, DECIMAL limits and collation.
- gRPC clients and the decoding of their answers: a failed call or decoding is a member of the outage.
- The actions protocol's own tables: only that it can fail a block is kept.
- The query methods over single rows.
- Consistency.SameHeightSameTables: account_reward of epochs with tied votes, which depends on how ties are broken, and the order of rows.
- The aggregates of epochs before staking, the self_staking column and the native flag, which is always true under staking.
- CalculateVoteWeight's logarithms.
- filterCandidates and probationListToMap: the legacy twins of the staking versions that are modelled.
- The order in which util.Sort of iotex-election breaks ties: any order by decreasing votes is admitted.
- Retries with backoff for the gravity chain height: a height that stays 0 is a failure.
- XRC20 and XRC721 caches, the Hermes event search, the bucket action index and TPS.
