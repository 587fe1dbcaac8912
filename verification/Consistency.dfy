/** What the database holds once a height is indexed, whatever happened on the way: the invariant of every
    run of the indexer. */
module Consistency {
  import opened Bytes
  import opened Wrappers
  import opened Schema
  import opened EpochContext
  import Sql
  import Paging
  import Accounts
  import BalanceHistory
  import Blocks
  import Rewards
  import RewardNames
  import RewardConservation
  import GrantSums
  import RewardView
  import Votings
  import VotingViews
  import PortionHistory
  import Rotation
  import RewardSplit
  import Ranking
  import SameRewards

  /** What the chain is relied on for. */
  ghost predicate ChainOk(chain: Chain) {
    && VotingViews.Sane(chain)
    && (forall h :: chain.block(h).height == h)
    && (forall h :: RewardConservation.GrantsNotNegative(chain.block(h)))
    && (forall h :: Paging.FitsOffsets(|chain.candidates(h)|, Paging.READ_CANDIDATES_LIMIT))
    && (forall h :: Paging.FitsOffsets(|chain.buckets(h)|, Paging.READ_BUCKETS_LIMIT))
  }

  /** The epoch in progress after a height; none before the first. */
  function OpenEpoch(cfg: Config, last: nat): nat
    requires cfg.epochCtx.Divisors() && cfg.epochCtx.dardanellesHeight > 0
  {
    if last == 0 then 0 else PlaceOf(cfg.epochCtx, last).epoch
  }

  /** The whole database after heights 1 to last, `silent` being the heights whose transaction log could not be
      fetched when they were committed. */
  ghost predicate Consistent(cfg: Config, chain: Chain, genesis: map<Str, int>, silent: set<nat>, db: Database,
                             last: nat)
    requires Sound(cfg) && ChainOk(chain)
  {
    && Blocks.HistoryUpTo(cfg, chain, db.blocks.history, last)
    && Blocks.Views(db.blocks, OpenEpoch(cfg, last))
    && BalanceHistory.Past(silent, last)
    && BalanceHistory.BalanceUpTo(cfg.epochCtx, chain, genesis, silent, db.accounts.balance, last)
    && Accounts.Views(db.accounts, OpenEpoch(cfg, last))
    && RewardConservation.Accounted(cfg, chain, db.rewards, OpenEpoch(cfg, last), last)
    && RewardView.SettledUpTo(cfg, db.votings.result, db.rewards, db.blocks.history, OpenEpoch(cfg, last))
    && RewardNames.HistoryNamed(cfg, chain, db.rewards.history) && RewardNames.NamesKnown(cfg, chain, last)
    && VotingViews.Views(cfg, chain, db.votings, OpenEpoch(cfg, last))
  }

  /** Nothing that is in the first database is changed or removed in the second. */
  ghost predicate OnlyGrows(db: Database, db': Database) {
    && Blocks.OnlyGrows(db.blocks, db'.blocks)
    && Accounts.OnlyGrows(db.accounts, db'.accounts)
    && RewardConservation.OnlyGrows(db.rewards, db'.rewards)
    && VotingsGrow(db.votings, db'.votings)
  }

  ghost predicate VotingsGrow(t: VotingsTables, t': VotingsTables) {
    && t.result <= t'.result
    && (forall k :: k in t.aggregate ==> k in t'.aggregate && t'.aggregate[k] == t.aggregate[k])
    && (forall p :: p in t.probation ==> p in t'.probation && t'.probation[p] == t.probation[p])
  }

  lemma GrowsTwice(a: Database, b: Database, c: Database)
    requires OnlyGrows(a, b) && OnlyGrows(b, c)
    ensures OnlyGrows(a, c)
  {}

  lemma GrowsFromItself(db: Database)
    ensures OnlyGrows(db, db)
  {}

  /** What the protocols hold in memory: the delegates, and the names by reward address. */
  datatype Memory = Memory(delegates: Blocks.Delegates, names: RewardNames.Names)

  const NO_MEMORY := Memory(Blocks.Delegates([], None), None)

  /** Memory holds nothing, or what it should before height `next` is handled. */
  ghost predicate MemoryFits(cfg: Config, chain: Chain, m: Memory, next: nat)
    requires Sound(cfg) && next > 0
  {
    Blocks.MemoryFits(cfg, chain, m.delegates, next) && RewardNames.NamesFit(cfg, chain, m.names, next)
  }

  /** How one block was indexed. */
  datatype Work = Work(rows: seq<BalanceRow>, settlement: Rewards.Settlement, filling: Votings.Filling)

  /** What the protocols do to the database when none of them fails. */
  ghost predicate Indexed(cfg: Config, chain: Chain, h: nat, out: Outage, m: Memory, db: Database,
                          w: Work, m': Memory, db': Database)
    requires Sound(cfg) && ChainOk(chain) && h > 0
  {
    var p := PlaceOf(cfg.epochCtx, h);
    && Blocks.HandledAt(cfg, chain, p, chain.block(h), m.delegates, db.blocks, m'.delegates, db'.blocks, Pass)
    && RewardNames.NamesHandled(cfg, chain, p, m.names, m'.names, Pass)
       && RewardNames.Named(w.settlement.rows, m'.names)
    && Rewards.Handled(p, chain.block(h),
                       Rewards.ClosingAt(cfg, p, db.votings.result, db.rewards.history, db.blocks.history),
                       db.rewards, w.settlement, db'.rewards)
    && Votings.Handled(cfg, chain, h, p, db.votings.result, db.votings, w.filling, db'.votings)
    && Accounts.Handled(cfg.epochCtx, chain, h, out, db.accounts, w.rows, db'.accounts)
  }

  /** Why an attempt at a block fails, given the calls that fail, what the protocols hold in memory and how each
      address breaks ties. */
  ghost predicate Blocked(cfg: Config, chain: Chain, h: nat, out: Outage, m: Memory, db: Database,
                          rankings: Rewards.Rankings)
    requires Sound(cfg) && ChainOk(chain) && h > 0
  {
    var p := PlaceOf(cfg.epochCtx, h);
    || Blocks.Fails(cfg, chain, p, chain.block(h), m.delegates, db.blocks, out)
    || ActionsCall in out
    || Rewards.Fails(p, chain.block(h),
                     Rewards.ClosingAt(cfg, p, db.votings.result, db.rewards.history, db.blocks.history),
                     chain, m.names, out, rankings)
    || Votings.Fails(cfg, chain, h, p, db.votings.result, db.votings.result, out)
  }

  /** What can keep a block from being indexed: by some order of ties an attempt fails if it follows a restart. */
  ghost predicate Obstacle(cfg: Config, chain: Chain, h: nat, out: Outage, db: Database)
    requires Sound(cfg) && ChainOk(chain) && h > 0
  {
    exists rankings :: Blocked(cfg, chain, h, out, NO_MEMORY, db, rankings)
  }

  /** Memory only ever saves an attempt. */
  lemma BlockedAfterRestart(cfg: Config, chain: Chain, h: nat, out: Outage, m: Memory, db: Database,
                            rankings: Rewards.Rankings)
    requires Sound(cfg) && ChainOk(chain) && h > 0 && Blocked(cfg, chain, h, out, m, db, rankings)
    ensures Obstacle(cfg, chain, h, out, db)
  {
    hide PlaceOf, ChainOk, Sound, Blocks.DelegatesFail, RewardNames.RefreshFails, Rewards.ClosingFails,
         Rewards.Undecodable, Rewards.ClosingAt, Votings.Fails;
    assert Blocked(cfg, chain, h, out, NO_MEMORY, db, rankings);
  }

  lemma NextEpoch(cfg: Config, last: nat)
    requires Sound(cfg)
    ensures var p := PlaceOf(cfg.epochCtx, last + 1); p.epoch == OpenEpoch(cfg, last) + (if p.starts then 1 else 0)
  {
    if last == 0 { FirstPlace(cfg.epochCtx); } else { NextPlace(cfg.epochCtx, last); }
  }

  lemma BlocksStayConsistent(cfg: Config, chain: Chain, last: nat, m: Blocks.Delegates, t: BlocksTables,
                             m': Blocks.Delegates, t': BlocksTables)
    requires Sound(cfg) && ChainOk(chain)
    requires Blocks.HistoryUpTo(cfg, chain, t.history, last) && Blocks.MemoryFits(cfg, chain, m, last + 1)
    requires Blocks.Views(t, OpenEpoch(cfg, last))
    requires Blocks.HandledAt(cfg, chain, PlaceOf(cfg.epochCtx, last + 1), chain.block(last + 1), m, t, m', t', Pass)
    ensures Blocks.HistoryUpTo(cfg, chain, t'.history, last + 1) && Blocks.MemoryFits(cfg, chain, m', last + 2)
    ensures Blocks.Views(t', OpenEpoch(cfg, last + 1)) && Blocks.OnlyGrows(t, t')
  {
    NextEpoch(cfg, last);
    hide PlaceOf, Blocks.HandledAt, Blocks.Views, Blocks.HistoryUpTo, Blocks.MemoryFits, Blocks.OnlyGrows;
    Blocks.HandlingKeepsHistory(cfg, chain, last, m, t, m', t', Pass);
    Blocks.HandlingKeepsViews(cfg, chain, PlaceOf(cfg.epochCtx, last + 1), chain.block(last + 1), m, t, m', t',
                              OpenEpoch(cfg, last));
  }

  lemma AccountsStayConsistent(cfg: Config, chain: Chain, genesis: map<Str, int>, silent: set<nat>, last: nat,
                               out: Outage, t: AccountsTables, rows: seq<BalanceRow>, t': AccountsTables)
    requires Sound(cfg) && BalanceHistory.Past(silent, last)
    requires BalanceHistory.BalanceUpTo(cfg.epochCtx, chain, genesis, silent, t.balance, last)
             && Accounts.Views(t, OpenEpoch(cfg, last))
    requires Accounts.Handled(cfg.epochCtx, chain, last + 1, out, t, rows, t')
    ensures var silent' := BalanceHistory.SilentAfter(silent, last + 1, out);
            && BalanceHistory.Past(silent', last + 1)
            && BalanceHistory.BalanceUpTo(cfg.epochCtx, chain, genesis, silent', t'.balance, last + 1)
    ensures Accounts.Views(t', OpenEpoch(cfg, last + 1)) && Accounts.OnlyGrows(t, t')
  {
    hide *;
    AccountsHandled(cfg, chain, last, out, t, rows, t');
    NextEpoch(cfg, last);
    SoundDivides(cfg);
    BalanceHistory.HandlingKeepsBalance(cfg.epochCtx, chain, genesis, silent, last, out, t, rows, t');
    var p := PlaceOf(cfg.epochCtx, last + 1);
    Accounts.HandlingKeepsViews(t, rows, t', OpenEpoch(cfg, last), p.epoch, p.starts, last + 1,
                                Accounts.FetchedLog(chain, last + 1, out));
  }

  lemma SoundDivides(cfg: Config)
    requires Sound(cfg)
    ensures cfg.epochCtx.Divisors() && cfg.epochCtx.dardanellesHeight > 0
  {}

  lemma AccountsHandled(cfg: Config, chain: Chain, last: nat, out: Outage, t: AccountsTables, rows: seq<BalanceRow>,
                        t': AccountsTables)
    requires Sound(cfg) && Accounts.Handled(cfg.epochCtx, chain, last + 1, out, t, rows, t')
    ensures cfg.epochCtx.Divisors() && cfg.epochCtx.dardanellesHeight > 0
    ensures var p := PlaceOf(cfg.epochCtx, last + 1);
            p.epoch == OpenEpoch(cfg, last + 1)
            && Accounts.HandledIn(p.epoch, p.starts, last + 1, Accounts.FetchedLog(chain, last + 1, out), t, rows, t')
  {
    hide PlaceOf, Accounts.HandledIn, Accounts.FetchedLog;
  }

  lemma VotingsAreUsable(cfg: Config, chain: Chain, t: VotingsTables, open: nat, p: Place, history: seq<RewardRow>,
                         blocks: seq<BlockRow>)
    requires Sound(cfg) && VotingViews.Sane(chain) && VotingViews.Views(cfg, chain, t, open) && p.epoch > 0
    ensures Rewards.ClosingAt(cfg, p, t.result, history, blocks).UniqueNames()
    ensures forall i :: 0 <= i < |t.result| ==> t.result[i].totalWeightedVotes >= 0
    ensures Votings.UniqueRows(t.result)
  {
    hide VotingViews.EpochRight, VotingViews.Bounded;
    forall i, j | 0 <= i < j < |t.result| && t.result[i].epoch == t.result[j].epoch
      ensures t.result[i].delegateName != t.result[j].delegateName
    {
      assert !Votings.SameKey(t.result[i], t.result[j]);
    }
  }

  lemma RewardsStayConsistent(cfg: Config, chain: Chain, last: nat, votings: VotingsTables, blocks: seq<BlockRow>,
                              t: RewardsTables, s: Rewards.Settlement, t': RewardsTables)
    requires Sound(cfg) && ChainOk(chain)
    requires RewardConservation.Accounted(cfg, chain, t, OpenEpoch(cfg, last), last)
    requires VotingViews.Views(cfg, chain, votings, OpenEpoch(cfg, last))
    requires var p := PlaceOf(cfg.epochCtx, last + 1);
             Rewards.Handled(p, chain.block(last + 1), Rewards.ClosingAt(cfg, p, votings.result, t.history, blocks), t,
                             s, t')
    ensures RewardConservation.Accounted(cfg, chain, t', OpenEpoch(cfg, last + 1), last + 1)
    ensures RewardConservation.OnlyGrows(t, t')
  {
    NextEpoch(cfg, last);
    var p := PlaceOf(cfg.epochCtx, last + 1);
    var c := Rewards.ClosingAt(cfg, p, votings.result, t.history, blocks);
    VotingsAreUsable(cfg, chain, votings, OpenEpoch(cfg, last), p, t.history, blocks);
    hide PlaceOf, VotingViews.Views, VotingViews.Sane, Rewards.Handled, RewardConservation.Accounted,
         RewardConservation.OnlyGrows, Rewards.Closing.UniqueNames;
    RewardConservation.HandlingKeepsAccounts(cfg, chain, last, p, c, t, s, t', OpenEpoch(cfg, last));
  }

  lemma VotingsStayConsistent(cfg: Config, chain: Chain, last: nat, t: VotingsTables, f: Votings.Filling,
                              t': VotingsTables)
    requires Sound(cfg) && ChainOk(chain) && VotingViews.Views(cfg, chain, t, OpenEpoch(cfg, last))
    requires Votings.Handled(cfg, chain, last + 1, PlaceOf(cfg.epochCtx, last + 1), t.result, t, f, t')
    ensures VotingViews.Views(cfg, chain, t', OpenEpoch(cfg, last + 1)) && VotingsGrow(t, t')
    ensures RewardView.Adds(t.result, t'.result, (r: VotingRow) => r.epoch, OpenEpoch(cfg, last + 1))
  {
    NextEpoch(cfg, last);
    hide PlaceOf, VotingViews.Views, VotingViews.Sane, Votings.Handled;
    VotingViews.HandlingKeepsViews(cfg, chain, last + 1, t, f, t', OpenEpoch(cfg, last));
  }

  lemma BlocksAdd(cfg: Config, chain: Chain, last: nat, m: Blocks.Delegates, t: BlocksTables, m': Blocks.Delegates,
                  t': BlocksTables)
    requires Sound(cfg)
    requires Blocks.HandledAt(cfg, chain, PlaceOf(cfg.epochCtx, last + 1), chain.block(last + 1), m, t, m', t', Pass)
    ensures RewardView.Adds(t.history, t'.history, (r: BlockRow) => r.epoch, OpenEpoch(cfg, last + 1))
  {
    var p := PlaceOf(cfg.epochCtx, last + 1);
    Blocks.ClosedHistory(t, p.epoch, p.starts);
    hide PlaceOf, Blocks.Closed;
  }

  lemma SettledStaysConsistent(cfg: Config, chain: Chain, last: nat, db: Database, s: Rewards.Settlement, db': Database)
    requires Sound(cfg)
    requires RewardConservation.Accounted(cfg, chain, db.rewards, OpenEpoch(cfg, last), last)
    requires RewardView.SettledUpTo(cfg, db.votings.result, db.rewards, db.blocks.history, OpenEpoch(cfg, last))
    requires var p := PlaceOf(cfg.epochCtx, last + 1);
             Rewards.Handled(p, chain.block(last + 1),
                             Rewards.ClosingAt(cfg, p, db.votings.result, db.rewards.history, db.blocks.history),
                             db.rewards, s, db'.rewards)
    requires RewardView.Adds(db.votings.result, db'.votings.result, (r: VotingRow) => r.epoch, OpenEpoch(cfg, last + 1))
    requires RewardView.Adds(db.blocks.history, db'.blocks.history, (r: BlockRow) => r.epoch, OpenEpoch(cfg, last + 1))
    ensures RewardView.SettledUpTo(cfg, db'.votings.result, db'.rewards, db'.blocks.history, OpenEpoch(cfg, last + 1))
  {
    NextEpoch(cfg, last);
    hide PlaceOf, Rewards.Handled, Rewards.ClosingAt, RewardView.SettledUpTo, RewardView.Adds,
         RewardConservation.Conserved, Rewards.HistoryTotal, RewardConservation.ChainTotalTo;
    RewardView.HandlingKeepsSettled(cfg, PlaceOf(cfg.epochCtx, last + 1), chain.block(last + 1), OpenEpoch(cfg, last),
                                    db.votings.result, db'.votings.result, db.blocks.history, db'.blocks.history,
                                    db.rewards, s, db'.rewards);
  }

  lemma NamesStayConsistent(cfg: Config, chain: Chain, last: nat, names: RewardNames.Names, names': RewardNames.Names,
                            db: Database, s: Rewards.Settlement, db': Database)
    requires Sound(cfg) && RewardNames.HistoryNamed(cfg, chain, db.rewards.history)
             && RewardNames.NamesKnown(cfg, chain, last)
    requires RewardNames.NamesFit(cfg, chain, names, last + 1)
    requires var p := PlaceOf(cfg.epochCtx, last + 1);
             && RewardNames.NamesHandled(cfg, chain, p, names, names', Pass) && RewardNames.Named(s.rows, names')
             && Rewards.Handled(p, chain.block(last + 1),
                                Rewards.ClosingAt(cfg, p, db.votings.result, db.rewards.history, db.blocks.history),
                                db.rewards, s, db'.rewards)
    ensures RewardNames.HistoryNamed(cfg, chain, db'.rewards.history) && RewardNames.NamesKnown(cfg, chain, last + 1)
    ensures RewardNames.NamesFit(cfg, chain, names', last + 2)
  {
    var p := PlaceOf(cfg.epochCtx, last + 1);
    RewardNames.HandlingKeepsNames(cfg, chain, last, names, names', Pass);
    hide PlaceOf, RewardNames.HistoryNamed, RewardNames.NamesKnown, RewardNames.NamesFit, RewardNames.NamesHandled,
         RewardNames.Named, RewardNames.NamesOfEpoch, Rewards.CreditsAll, Rewards.Closed;
    RewardNames.AppendKeepsNamed(cfg, chain, db.rewards.history, s.rows, p.epoch, names');
  }

  /** Indexing the next block leads from a consistent database to a consistent database, one height later, in
      which nothing stored before has changed; memory fits the block after it. */
  lemma IndexingStaysConsistent(cfg: Config, chain: Chain, genesis: map<Str, int>, silent: set<nat>, last: nat,
                                out: Outage, m: Memory, db: Database, w: Work, m': Memory, db': Database)
    requires Sound(cfg) && ChainOk(chain) && Consistent(cfg, chain, genesis, silent, db, last)
    requires MemoryFits(cfg, chain, m, last + 1) && Indexed(cfg, chain, last + 1, out, m, db, w, m', db')
    ensures Consistent(cfg, chain, genesis, BalanceHistory.SilentAfter(silent, last + 1, out), db', last + 1)
            && OnlyGrows(db, db')
    ensures MemoryFits(cfg, chain, m', last + 2)
  {
    hide RewardNames.HistoryNamed, RewardNames.NamesKnown, RewardNames.NamesFit, RewardNames.NamesHandled,
         RewardNames.Named, RewardView.SettledUpTo, RewardView.Adds, BalanceHistory.Past, BalanceHistory.SilentAfter,
         PlaceOf, OpenEpoch, Blocks.HandledAt, Rewards.Handled, Votings.Handled, Accounts.Handled, Blocks.HistoryUpTo,
         Blocks.Views, BalanceHistory.BalanceUpTo, Accounts.Views, RewardConservation.Accounted, VotingViews.Views,
         Blocks.MemoryFits, ChainOk, Sound, Blocks.OnlyGrows, Accounts.OnlyGrows, RewardConservation.OnlyGrows,
         VotingsGrow, Rewards.ClosingAt;
    BlocksStayConsistent(cfg, chain, last, m.delegates, db.blocks, m'.delegates, db'.blocks);
    AccountsStayConsistent(cfg, chain, genesis, silent, last, out, db.accounts, w.rows, db'.accounts);
    RewardsStayConsistent(cfg, chain, last, db.votings, db.blocks.history, db.rewards, w.settlement, db'.rewards);
    VotingsStayConsistent(cfg, chain, last, db.votings, w.filling, db'.votings);
    BlocksAdd(cfg, chain, last, m.delegates, db.blocks, m'.delegates, db'.blocks);
    SettledStaysConsistent(cfg, chain, last, db, w.settlement, db');
    NamesStayConsistent(cfg, chain, last, m.names, m'.names, db, w.settlement, db');
  }

  /** A database with the genesis rows alone is consistent. */
  lemma GenesisConsistent(cfg: Config, chain: Chain, genesis: map<Str, int>, rows: seq<BalanceRow>)
    requires Sound(cfg) && ChainOk(chain) && Accounts.GenesisRows(rows, genesis, genesis.Keys)
    ensures Consistent(cfg, chain, genesis, {},
                       EMPTY_DATABASE.(accounts := Accounts.WithRows(EMPTY_DATABASE.accounts, rows)), 0)
  {
    hide PlaceOf, Accounts.GenesisRows;
    var accounts := Accounts.WithRows(EMPTY_DATABASE.accounts, rows);
    assert accounts.balance == rows;
    GenesisViews(accounts, rows, genesis);
    NothingAccounted(cfg, chain);
    NothingVoted(cfg, chain);
    hide Accounts.Views, VotingViews.Views, RewardConservation.Accounted;
  }

  lemma GenesisViews(t: AccountsTables, rows: seq<BalanceRow>, genesis: map<Str, int>)
    requires Accounts.GenesisRows(rows, genesis, genesis.Keys) && t == AccountsTables(rows, map[], map[], map[])
    ensures Accounts.Views(t, 0)
  {
    hide Sql.Keys, Sql.Total;
  }

  lemma NothingAccounted(cfg: Config, chain: Chain)
    requires Sound(cfg)
    ensures RewardConservation.Accounted(cfg, chain, EMPTY_DATABASE.rewards, 0, 0)
  {
    hide RewardConservation.Conserved;
  }

  lemma NothingVoted(cfg: Config, chain: Chain)
    requires Sound(cfg) && VotingViews.Sane(chain)
    ensures VotingViews.Views(cfg, chain, EMPTY_DATABASE.votings, 0)
  {
    hide VotingViews.EpochRight;
  }

  /* ---------- what the invariant determines ---------- */

  lemma SameMaterialised<R>(a: map<(nat, Str), int>, b: map<(nat, Str), int>, rows: seq<R>, q: Sql.Query<R>,
                            closed: nat)
    requires Sql.Materialised(a, rows, q, closed) && Sql.Materialised(b, rows, q, closed)
    ensures a == b
  {
    hide Sql.Keys, Sql.Total;
    forall p ensures p in a <==> p in b {}
  }

  lemma SameProductivity(a: BlocksTables, b: BlocksTables, closed: nat)
    requires a.history == b.history && Blocks.ProductivityView(a, closed) && Blocks.ProductivityView(b, closed)
    ensures a.productivity == b.productivity
  {
    hide Sql.Keys, Blocks.Recounted;
    forall p ensures p in a.productivity <==> p in b.productivity {}
  }

  /** Any two runs that reached the same height, however they were batched, interrupted, retried or restarted,
      hold the same block history and the same three tables rebuilt from it, the same rewards granted to every
      address in every epoch, the same voting and probation rows, and the same aggregates of staking epochs. If
      the same transaction logs could be fetched, they hold the same flow tables as well. */
  lemma SameHeightSameTables(cfg: Config, chain: Chain, genesis: map<Str, int>, silent: set<nat>, silent': set<nat>,
                             a: Database, b: Database, last: nat)
    requires Sound(cfg) && ChainOk(chain)
    requires Consistent(cfg, chain, genesis, silent, a, last) && Consistent(cfg, chain, genesis, silent', b, last)
    ensures a.blocks == b.blocks
    ensures forall e, kind, addr ::
              Rewards.HistoryTotal(a.rewards.history, e, kind, addr)
                == Rewards.HistoryTotal(b.rewards.history, e, kind, addr)
    ensures cfg.rolldpos ==>
              && VotingViews.SameRows(a.votings.result, b.votings.result)
              && a.votings.probation == b.votings.probation
              && forall e :: PortionHistory.StakingEpoch(cfg.epochCtx, e)
                             ==> VotingViews.SameAggregates(a.votings.aggregate, b.votings.aggregate, e)
    ensures cfg.rolldpos ==>
              && (forall e :: 1 <= e <= OpenEpoch(cfg, last) && PortionHistory.StakingEpoch(cfg.epochCtx, e)
                              ==> VotingViews.SameRaw(a.votings, b.votings, cfg.epochCtx.GetEpochHeight(e)))
              && (forall e :: 1 <= e < OpenEpoch(cfg, last) && Ranking.DistinctVotes(ClosingOf(cfg, a, e).Votes())
                              ==> RewardConservation.AccountOf(a.rewards.account, e)
                                  == RewardConservation.AccountOf(b.rewards.account, e))
    ensures silent == silent' ==>
              && a.accounts.inflow == b.accounts.inflow && a.accounts.outflow == b.accounts.outflow
              && a.accounts.income == b.accounts.income
  {
    hide PlaceOf, OpenEpoch, ChainOk, BalanceHistory.BalanceUpTo, Accounts.Views, VotingViews.Views, Blocks.HistoryUpTo,
         Blocks.Views, RewardConservation.Conserved, RewardView.SettledUpTo, VotingViews.SameRows,
         VotingViews.SameAggregates, VotingViews.SameRaw, PortionHistory.StakingEpoch, Ranking.DistinctVotes, ClosingOf,
         RewardConservation.AccountOf, EpochCtx.GetEpochHeight, RewardNames.HistoryNamed, RewardNames.NamesKnown;
    var open := OpenEpoch(cfg, last);
    SameBlocks(cfg, chain, a.blocks, b.blocks, last, open);
    if cfg.rolldpos {
      OkIsSane(chain);
      VotingViews.SameViews(cfg, chain, a.votings, b.votings, open);
      SameRawTables(cfg, chain, a.votings, b.votings, open);
      hide Consistent;
      forall e | 1 <= e < open && Ranking.DistinctVotes(ClosingOf(cfg, a, e).Votes())
        ensures RewardConservation.AccountOf(a.rewards.account, e) == RewardConservation.AccountOf(b.rewards.account, e)
      {
        SameAccounts(cfg, chain, genesis, silent, silent', a, b, last, e);
      }
    }
    if silent == silent' {
      BalanceHistory.SameFlowTables(cfg.epochCtx, chain, genesis, silent, a.accounts, b.accounts, last, open);
    }
  }

  lemma SameRawTables(cfg: Config, chain: Chain, a: VotingsTables, b: VotingsTables, open: nat)
    requires cfg.epochCtx.Divisors() && VotingViews.Sane(chain) && cfg.rolldpos
    requires VotingViews.Views(cfg, chain, a, open) && VotingViews.Views(cfg, chain, b, open)
    ensures forall e :: 1 <= e <= open && PortionHistory.StakingEpoch(cfg.epochCtx, e)
                        ==> VotingViews.SameRaw(a, b, cfg.epochCtx.GetEpochHeight(e))
  {
    hide VotingViews.Sane, VotingViews.Views, VotingViews.SameRaw, PortionHistory.StakingEpoch, EpochCtx.GetEpochHeight;
    forall e | 1 <= e <= open && PortionHistory.StakingEpoch(cfg.epochCtx, e)
      ensures VotingViews.SameRaw(a, b, cfg.epochCtx.GetEpochHeight(e))
    {
      VotingViews.SameRawRecords(cfg, chain, a, b, open, e);
    }
  }

  /** The base rows of an epoch and the tables it is closed from. */
  function ClosingOf(cfg: Config, db: Database, e: nat): Rewards.Closing {
    Rewards.Closing(cfg, e, db.votings.result, db.rewards.history, db.blocks.history)
  }

  lemma SameAccounts(cfg: Config, chain: Chain, genesis: map<Str, int>, silent: set<nat>, silent': set<nat>,
                     a: Database, b: Database, last: nat, e: nat)
    requires Sound(cfg) && ChainOk(chain) && cfg.rolldpos && 1 <= e < OpenEpoch(cfg, last)
    requires Consistent(cfg, chain, genesis, silent, a, last) && Consistent(cfg, chain, genesis, silent', b, last)
    requires a.blocks == b.blocks && VotingViews.SameRows(a.votings.result, b.votings.result)
    requires Ranking.DistinctVotes(ClosingOf(cfg, a, e).Votes())
    ensures RewardConservation.AccountOf(a.rewards.account, e) == RewardConservation.AccountOf(b.rewards.account, e)
  {
    ClosingUsable(cfg, chain, genesis, silent, a, last, e);
    ClosingUsable(cfg, chain, genesis, silent', b, last, e);
    SameGranted(cfg, chain, genesis, silent, silent', a, b, last, e);
    hide *;
    ClosingsAre(cfg, a, b, e);
    SameRewards.SameSettlement(ClosingOf(cfg, a, e), ClosingOf(cfg, b, e),
                               RewardConservation.AccountOf(a.rewards.account, e),
                               RewardConservation.AccountOf(b.rewards.account, e));
  }

  lemma ClosingsAre(cfg: Config, a: Database, b: Database, e: nat)
    ensures ClosingOf(cfg, a, e) == Rewards.Closing(cfg, e, a.votings.result, a.rewards.history, a.blocks.history)
    ensures ClosingOf(cfg, b, e) == Rewards.Closing(cfg, e, b.votings.result, b.rewards.history, b.blocks.history)
  {}

  lemma SameGranted(cfg: Config, chain: Chain, genesis: map<Str, int>, silent: set<nat>, silent': set<nat>,
                    a: Database, b: Database, last: nat, e: nat)
    requires Sound(cfg) && ChainOk(chain)
    requires Consistent(cfg, chain, genesis, silent, a, last) && Consistent(cfg, chain, genesis, silent', b, last)
    requires a.blocks == b.blocks && VotingViews.SameRows(a.votings.result, b.votings.result)
    ensures SameRewards.SameBase(ClosingOf(cfg, a, e), ClosingOf(cfg, b, e))
  {
    var c, d := ClosingOf(cfg, a, e), ClosingOf(cfg, b, e);
    hide PlaceOf, Blocks.HistoryUpTo, Blocks.Views, BalanceHistory.BalanceUpTo, Accounts.Views, RewardView.SettledUpTo,
         VotingViews.Views, RewardConservation.Conserved, RewardConservation.ChainTotalTo, Rewards.AddressesOf,
         RewardConservation.ChainGrantedTo, RewardNames.HistoryNamed, RewardNames.NamesKnown, Rewards.HistoryTotal,
         Rewards.Closing.TotalOf;
    forall addr
      ensures c.TotalOf(addr) == d.TotalOf(addr) { SameTotals(a.rewards.history, b.rewards.history, c, d, addr); }
  }

  lemma SameTotals(history: seq<RewardRow>, history': seq<RewardRow>, c: Rewards.Closing, d: Rewards.Closing, addr: Str)
    requires c.history == history && d.history == history' && c.epoch == d.epoch
    requires forall kind ::
               Rewards.HistoryTotal(history, c.epoch, kind, addr) == Rewards.HistoryTotal(history', c.epoch, kind, addr)
    ensures c.TotalOf(addr) == d.TotalOf(addr)
  {
    assert Rewards.HistoryTotal(history, c.epoch, BlockReward, addr)
           == Rewards.HistoryTotal(history', c.epoch, BlockReward, addr);
    assert Rewards.HistoryTotal(history, c.epoch, EpochReward, addr)
           == Rewards.HistoryTotal(history', c.epoch, EpochReward, addr);
    assert Rewards.HistoryTotal(history, c.epoch, FoundationBonus, addr)
           == Rewards.HistoryTotal(history', c.epoch, FoundationBonus, addr);
  }

  lemma OkIsSane(chain: Chain)
    requires ChainOk(chain)
    ensures VotingViews.Sane(chain)
  {
    hide VotingViews.Sane;
  }

  lemma SameBlocks(cfg: Config, chain: Chain, a: BlocksTables, b: BlocksTables, last: nat, open: nat)
    requires Sound(cfg)
    requires Blocks.HistoryUpTo(cfg, chain, a.history, last) && Blocks.HistoryUpTo(cfg, chain, b.history, last)
    requires Blocks.Views(a, open) && Blocks.Views(b, open)
    ensures a == b
  {
    hide Blocks.RowAt, Sql.Materialised, Blocks.ProductivityView;
    assert a.history == b.history;
    SameMaterialised(a.expectedProducer, b.expectedProducer, a.history, Blocks.EXPECTED, open);
    SameMaterialised(a.producer, b.producer, a.history, Blocks.PRODUCED, open);
    SameProductivity(a, b, open);
  }

  /** In every database that a run can reach, balance_history holds all transfers logged for a block, each once, if
      and only if there were none, or the log could be fetched when the block was committed and no log with
      transfers was followed by another one of the same action. */
  lemma TransfersRecordedIff(cfg: Config, chain: Chain, genesis: map<Str, int>, silent: set<nat>, db: Database,
                             last: nat, h: nat)
    requires Sound(cfg) && ChainOk(chain) && Consistent(cfg, chain, genesis, silent, db, last) && 1 <= h <= last
    ensures var rows, log := BalanceHistory.AtHeight(db.accounts.balance, h), BalanceHistory.FullLog(chain, h);
            Accounts.Appended(rows, PlaceOf(cfg.epochCtx, h).epoch, h, log)
            <==> h !in silent || BalanceHistory.NoTransactions(log)
    ensures var rows, logs := BalanceHistory.AtHeight(db.accounts.balance, h), chain.transactionLog(h);
            var e := PlaceOf(cfg.epochCtx, h).epoch;
            BalanceHistory.AllRecorded(rows, logs, e, h)
            <==> BalanceHistory.LoggedRows(logs, e, h, |logs|) == []
                 || (h !in silent && BalanceHistory.NothingOverwritten(logs))
  {
    hide PlaceOf, Accounts.Appended, BalanceHistory.FullLog, BalanceHistory.AtHeight, BalanceHistory.BalanceUpTo,
         BalanceHistory.AllRecorded, BalanceHistory.LoggedRows, BalanceHistory.NothingOverwritten, Blocks.Views,
         Blocks.HistoryUpTo, Accounts.Views, VotingViews.Views;
    BalanceHistory.RecordedIff(cfg.epochCtx, chain, genesis, silent, db.accounts.balance, last, h);
    BalanceHistory.LoggedRecordedIff(cfg.epochCtx, chain, genesis, silent, db.accounts.balance, last, h);
  }

  /** In every database that a run can reach, account_reward holds for every closed epoch and every address that
      was granted rewards in it what the address's own candidates are due: everything if there is one, otherwise
      a split that falls short by less than their number for each kind that anybody earns. */
  lemma ClosedEpochSettled(cfg: Config, chain: Chain, genesis: map<Str, int>, silent: set<nat>, db: Database, last: nat,
                           e: nat)
    returns (rankings: Rewards.Rankings)
    requires Sound(cfg) && ChainOk(chain) && Consistent(cfg, chain, genesis, silent, db, last)
    requires cfg.rolldpos && 1 <= e < OpenEpoch(cfg, last)
    ensures var c := Rewards.Closing(cfg, e, db.votings.result, db.rewards.history, db.blocks.history);
            && RewardSplit.Counted(c.Production()) && c.Addresses() <= rankings.Keys
            && (forall a :: a in c.Addresses() ==> RewardView.PaidInFull(c, a, rankings[a]))
            && RewardView.CreditedExactly(c, rankings, RewardConservation.AccountOf(db.rewards.account, e))
            && (forall a :: a in c.Addresses() ==>
                  RewardView.CreditedAsDue(c, a, rankings[a], RewardConservation.AccountOf(db.rewards.account, e)))
  {
    var c := Rewards.Closing(cfg, e, db.votings.result, db.rewards.history, db.blocks.history);
    ClosingUsable(cfg, chain, genesis, silent, db, last, e);
    hide *;
    rankings := RewardView.SettledByAddress(c, RewardConservation.AccountOf(db.rewards.account, e));
  }

  lemma ClosingUsable(cfg: Config, chain: Chain, genesis: map<Str, int>, silent: set<nat>, db: Database, last: nat,
                      e: nat)
    requires Sound(cfg) && ChainOk(chain) && Consistent(cfg, chain, genesis, silent, db, last)
    requires cfg.rolldpos && 1 <= e < OpenEpoch(cfg, last)
    ensures var c := Rewards.Closing(cfg, e, db.votings.result, db.rewards.history, db.blocks.history);
            && c.epoch > 0 && c.UniqueNames() && Rewards.NoDebts(c)
            && RewardView.Settled(c, RewardConservation.AccountOf(db.rewards.account, e))
  {
    hide PlaceOf, Blocks.HistoryUpTo, Blocks.Views, BalanceHistory.BalanceUpTo, Accounts.Views, RewardView.Settled,
         RewardConservation.AccountOf, VotingViews.EpochRight, VotingViews.Sane;
    var p := Place(e + 1, false, 0, false);
    VotingsAreUsable(cfg, chain, db.votings, OpenEpoch(cfg, last), p, db.rewards.history, db.blocks.history);
    NoDebtsAt(cfg, chain, genesis, silent, db, last, e);
  }

  lemma NoDebtsAt(cfg: Config, chain: Chain, genesis: map<Str, int>, silent: set<nat>, db: Database, last: nat, e: nat)
    requires Sound(cfg) && ChainOk(chain) && Consistent(cfg, chain, genesis, silent, db, last)
    ensures Rewards.NoDebts(Rewards.Closing(cfg, e, db.votings.result, db.rewards.history, db.blocks.history))
  {
    hide PlaceOf, Blocks.HistoryUpTo, Blocks.Views, BalanceHistory.BalanceUpTo, Accounts.Views, RewardView.SettledUpTo,
         VotingViews.EpochRight, VotingViews.Bounded, VotingViews.Sane, RewardConservation.Conserved,
         RewardConservation.GrantsNotNegative, RewardConservation.ChainTotalTo;
    forall kind, addr ensures Rewards.HistoryTotal(db.rewards.history, e, kind, addr) >= 0 {
      RewardConservation.ChainNotNegative(cfg, chain, e, kind, addr, last);
    }
  }

  /** In every database that a run can reach, reward_history holds what the chain's reward logs grant, and no more:
      every
      row is written for a receipt of its epoch, and for every epoch and kind the rows of an address, and those of all
      addresses, add up to the amounts of the logs. */
  lemma GrantsRecorded(cfg: Config, chain: Chain, genesis: map<Str, int>, silent: set<nat>, db: Database, last: nat,
                       e: nat, addr: Str)
    requires Sound(cfg) && ChainOk(chain) && Consistent(cfg, chain, genesis, silent, db, last) && e > 0
    ensures var rows := db.rewards.history;
            && (forall i :: 0 <= i < |rows| ==> RewardConservation.Recorded(cfg, chain, rows[i], last))
            && (GrantSums.RowsOfAddress(rows, e, addr) != {}
                <==> exists p :: GrantSums.Pays(cfg, chain, e, addr, last, p))
            && GrantSums.ColumnsOf(rows, GrantSums.RowsOfAddress(rows, e, addr))
               == GrantSums.GrantedReward(cfg, chain, e, addr, last)
               == ClosingOf(cfg, db, e).TotalOf(addr)
            && GrantSums.ColumnsOf(rows, GrantSums.RowsOfEpoch(rows, e)) == GrantSums.AllGranted(cfg, chain, e, last)
  {
    hide Blocks.HistoryUpTo, Blocks.Views, BalanceHistory.BalanceUpTo, Accounts.Views, VotingViews.Views, ChainOk,
         RewardView.SettledUpTo, RewardNames.HistoryNamed, RewardNames.NamesKnown, RewardConservation.Recorded;
    var open := OpenEpoch(cfg, last);
    assert RewardConservation.Accounted(cfg, chain, db.rewards, open, last);
    hide Consistent, Rewards.HistoryTotal, RewardConservation.ChainTotalTo, RewardConservation.ChainGrantedTo,
         RewardConservation.Conserved, Rewards.AddressesOf, GrantSums.GrantedReward, GrantSums.AllGranted,
         GrantSums.RowsOfAddress, GrantSums.RowsOfEpoch, GrantSums.ColumnsOf, GrantSums.Pays;
    GrantSums.AddressHasRow(cfg, chain, db.rewards, open, last, e, addr);
    GrantSums.AddressGranted(cfg, chain, db.rewards, open, last, e, addr);
    GrantSums.EpochGranted(cfg, chain, db.rewards, open, last, e);
  }

  /** In every database that a run can reach, the tables of a closed epoch count what they say: the blocks and turns of
      a
      name, and the transfers to and from an address. */
  lemma ClosedEpochCounted(cfg: Config, chain: Chain, genesis: map<Str, int>, silent: set<nat>, db: Database, last: nat,
                           e: nat, name: Str, a: Str)
    requires Sound(cfg) && ChainOk(chain) && Consistent(cfg, chain, genesis, silent, db, last)
    requires 1 <= e < OpenEpoch(cfg, last)
    ensures var row := (e, name);
            && (row in db.blocks.productivity <==> Rotation.TurnsOf(cfg, chain, e, name, last) != {})
            && (row in db.blocks.productivity ==>
                  && db.blocks.productivity[row].production == |Rotation.ProducedBy(cfg, chain, e, name, last)|
                  && db.blocks.productivity[row].expected == |Rotation.TurnsOf(cfg, chain, e, name, last)|)
    ensures var rows, row := db.accounts.balance, (e, a);
            var to, from, amount :=
              Accounts.PaysTo(rows, e, a), Accounts.PaysFrom(rows, e, a), Accounts.AmountAt(rows);
            && (row in db.accounts.inflow <==> to != {}) && (row in db.accounts.outflow <==> from != {})
            && (row in db.accounts.income <==> to + from != {})
            && (to != {} ==> db.accounts.inflow[row] == Sql.SumSet(to, amount))
            && (from != {} ==> db.accounts.outflow[row] == Sql.SumSet(from, amount))
            && (to + from != {} ==> db.accounts.income[row] == Sql.SumSet(to, amount) - Sql.SumSet(from, amount))
  {
    hide Blocks.HistoryUpTo, Blocks.Views, BalanceHistory.BalanceUpTo, Accounts.Views, VotingViews.Views,
         RewardView.SettledUpTo, RewardConservation.Accounted, VotingViews.Sane, EpochCtx.GetEpochHeight,
         EpochCtx.GetEpochNumber, Rotation.TurnsOf, Rotation.ProducedBy, Accounts.PaysTo, Accounts.PaysFrom, Sql.SumSet;
    Rotation.ProductivityBlockByBlock(cfg, chain, db.blocks, last, e, name);
    Accounts.FlowsRowByRow(db.accounts, OpenEpoch(cfg, last), e, a);
  }

  /** In every database that a run can reach, every closed epoch balances: the incomes of its addresses cancel
      out, its credits of every kind stay within what the chain's reward logs granted in it, and its expected turns, and
      its produced blocks, add up to its length. */
  lemma ClosedEpochBalances(cfg: Config, chain: Chain, genesis: map<Str, int>, silent: set<nat>, db: Database,
                            last: nat, e: nat)
    requires Sound(cfg) && cfg.epochCtx.dardanellesOn && ChainOk(chain)
             && Consistent(cfg, chain, genesis, silent, db, last)
    requires 1 <= e < OpenEpoch(cfg, last)
    ensures Sql.SumSet(Sql.NamesAt(db.accounts.income, e), Accounts.IncomeAt(db.accounts, e)) == 0
    ensures forall kind ::
              0 <= RewardSplit.SumOfKind(RewardConservation.AccountOf(db.rewards.account, e), kind)
              <= Sql.EpochSum(db.rewards.history, Rewards.RewardSums(kind), e)
              == Sql.SumSet(GrantSums.Grants(cfg, chain, e, kind, last), GrantSums.Granted(chain))
    ensures Sql.SumSet(Sql.NamesAt(db.blocks.productivity, e), Rotation.ExpectedIn(db.blocks, e))
            == Sql.SumSet(Sql.NamesAt(db.blocks.producer, e), Rotation.ProducedIn(db.blocks, e))
            == if e < cfg.epochCtx.ForkEpoch() then cfg.epochCtx.OldLength() else cfg.epochCtx.NewLength()
  {
    hide Blocks.HistoryUpTo, Blocks.Views, BalanceHistory.BalanceUpTo, Accounts.Views, VotingViews.Views, ChainOk,
         Sql.SumSet, Sql.EpochSum, RewardSplit.SumOfKind, RewardConservation.AccountOf, EpochCtx.GetEpochHeight,
         EpochCtx.GetEpochNumber;
    Accounts.IncomesSumToZero(db.accounts, OpenEpoch(cfg, last), e);
    Rotation.ExpectedAddUpToLength(cfg, chain, db.blocks, last, e);
    Rotation.ProducedAddUpToLength(cfg, chain, db.blocks, last, e);
    GrantSums.EpochGranted(cfg, chain, db.rewards, OpenEpoch(cfg, last), last, e);
    assert RewardConservation.Conserved(db.rewards, e);
  }

  /** In every database that a run can reach, every staking epoch opened so far is stored right, and a delegate
      that never sat out one has the portions of a full scan. */
  lemma StakingEpochStored(cfg: Config, chain: Chain, genesis: map<Str, int>, silent: set<nat>, db: Database, last: nat,
                           e: nat)
    requires Sound(cfg) && ChainOk(chain) && Consistent(cfg, chain, genesis, silent, db, last)
    requires cfg.rolldpos && 1 <= e <= OpenEpoch(cfg, last) && PortionHistory.StakingEpoch(cfg.epochCtx, e)
    ensures VotingViews.EpochRight(cfg, chain, db.votings, e)
    ensures PortionHistory.Carries(cfg) && PortionHistory.InOrder(chain.profileLogs) ==>
              forall row :: row in db.votings.result && row.epoch == e
                            && PortionHistory.NeverAbsent(cfg, chain, e, row.stakingAddress)
                            ==> row.portions == VotingViews.ScannedPortions(cfg, chain, e, row.stakingAddress)
  {
    hide Blocks.HistoryUpTo, Blocks.Views, BalanceHistory.BalanceUpTo, Accounts.Views, RewardConservation.Accounted,
         VotingViews.EpochRight, VotingViews.ScannedPortions, VotingViews.Bounded, PortionHistory.Carries,
         PortionHistory.NeverAbsent, PortionHistory.InOrder, VotingViews.Sane, PlaceOf, EpochCtx.GetEpochHeight;
    if PortionHistory.Carries(cfg) && PortionHistory.InOrder(chain.profileLogs) {
      forall row | row in db.votings.result && row.epoch == e
          && PortionHistory.NeverAbsent(cfg, chain, e, row.stakingAddress)
        ensures row.portions == VotingViews.ScannedPortions(cfg, chain, e, row.stakingAddress)
      {
        VotingViews.StoredPortionsEqualScan(cfg, chain, db.votings, e, row);
      }
    }
  }
}
