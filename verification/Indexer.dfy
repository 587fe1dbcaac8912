/** The block driver (indexservice/indexer.go): batches of blocks, one transaction for each, restarts. */
module Indexer {
  import opened Bytes
  import opened Wrappers
  import opened Schema
  import opened EpochContext
  import opened Store
  import opened Consistency
  import opened Progress
  import Paging
  import Accounts
  import BalanceHistory
  import Blocks
  import Rewards
  import RewardNames
  import Votings
  import VotingViews

  /** MAX(block_height), or 0 for an empty table. */
  method MaxBlockHeight(history: seq<BlockRow>) returns (h: nat)
    ensures forall i :: 0 <= i < |history| ==> history[i].height <= h
    ensures h == 0 || exists i :: 0 <= i < |history| && history[i].height == h
  {
    h := 0;
    for i := 0 to |history|
      invariant forall j :: 0 <= j < i ==> history[j].height <= h
      invariant h == 0 || exists j :: 0 <= j < i && history[j].height == h
    {
      if history[i].height > h { h := history[i].height; }
    }
  }

  lemma LastIsMax(cfg: Config, chain: Chain, history: seq<BlockRow>, last: nat, h: nat)
    requires Sound(cfg) && (forall k :: chain.block(k).height == k) && Blocks.HistoryUpTo(cfg, chain, history, last)
    requires forall i :: 0 <= i < |history| ==> history[i].height <= h
    requires h == 0 || exists i :: 0 <= i < |history| && history[i].height == h
    ensures h == last
  {
    hide PlaceOf;
    forall i | 0 <= i < last ensures history[i].height == i + 1 {
      assert history[i] == Blocks.RowAt(cfg, chain, i + 1);
    }
    if last > 0 { assert history[last - 1].height == last; }
  }

  /** What happens while one batch runs: which requests for raw blocks fail, and which calls fail while a block
      is handled. */
  datatype Weather = Weather(unreachable: nat -> bool, outage: nat -> Outage)

  /** After a batch the silent heights are those from before it and those of its own committed blocks whose
      transaction log could not be fetched. */
  ghost predicate SilentIn(before: set<nat>, after: set<nat>, weather: Weather, from: nat, to: nat) {
    forall h :: h in after <==> h in before || (from < h <= to && TransactionLogCall in weather.outage(h))
  }

  /** No call fails. */
  ghost predicate CalmWeather(weather: Weather) {
    forall h: nat :: !weather.unreachable(h) && weather.outage(h) == {}
  }

  /** The tip that chain metadata reports, or a restart of the process. */
  datatype Event = NewTip(tip: nat, weather: Weather) | Restart

  class Indexer {
    const cfg: Config
    const chain: Chain
    const store: StoreBase
    const blocks: Blocks.BlocksProtocol
    const rewards: Rewards.RewardsProtocol
    const votings: Votings.VotingsProtocol
    const accounts: Accounts.AccountsProtocol
    var lastHeight: nat
    /** The heights committed without their transfers. */
    ghost var silent: set<nat>

    /** NewIndexer and RegisterDefaultProtocols. */
    constructor (store: StoreBase, cfg: Config, chain: Chain)
      ensures this.store == store && this.cfg == cfg && this.chain == chain && lastHeight == 0
      ensures fresh(blocks) && fresh(rewards) && Wired() && Memories() == NO_MEMORY
    {
      this.store, this.cfg, this.chain, lastHeight := store, cfg, chain, 0;
      silent := {};
      blocks := new Blocks.BlocksProtocol(cfg);
      rewards := new Rewards.RewardsProtocol(cfg);
      accounts := new Accounts.AccountsProtocol(cfg.epochCtx);
      votings := new Votings.VotingsProtocol(cfg);
    }

    /** What the protocols hold in memory. */
    function Memories(): Memory
      reads blocks, rewards
    {
      Memory(blocks.Memory(), rewards.rewardAddrToName)
    }

    /** All protocols share one configuration, and the assumptions hold. */
    ghost predicate Wired() {
      blocks.cfg == cfg && rewards.cfg == cfg && votings.cfg == cfg && accounts.epochCtx == cfg.epochCtx
    }

    ghost predicate Assumptions() {
      Sound(cfg) && ChainOk(chain) && cfg.rangeQueryLimit >= 1
    }

    /** The committed database is consistent at lastHeight, and memory fits the next block. */
    ghost predicate Valid(genesis: map<Str, int>)
      reads this, store, blocks, rewards
    {
      && Wired() && Assumptions()
      && Consistent(cfg, chain, genesis, silent, store.db, lastHeight)
      && MemoryFits(cfg, chain, Memories(), lastHeight + 1)
    }

    /** Initialize: only the accounts protocol has rows to write. */
    method Initialize(genesis: map<Str, int>, ghost last: nat, ghost known: set<nat>)
      requires Wired() && Assumptions()
      requires (store.db == EMPTY_DATABASE && last == 0 && known == {})
               || Consistent(cfg, chain, genesis, known, store.db, last)
      modifies store
      ensures Consistent(cfg, chain, genesis, known, store.db, last)
      ensures old(store.db) != EMPTY_DATABASE ==> store.db == old(store.db)
    {
      hide Consistent, ChainOk, Accounts.GenesisRows, Accounts.HasGenesis;
      var tx := store.Begin();
      ghost var rows := accounts.Initialize(tx, store.db.accounts.balance, genesis);
      store.End(tx, Pass);
      InitializedOnce(cfg, chain, genesis, known, old(store.db), last, rows, store.db);
    }

    /** Start, up to the first batch: MAX(block_height) tells where to resume. */
    method Start(genesis: map<Str, int>, ghost last: nat, ghost known: set<nat>)
      requires Wired() && Assumptions() && Memories() == NO_MEMORY
      requires (store.db == EMPTY_DATABASE && last == 0 && known == {})
               || Consistent(cfg, chain, genesis, known, store.db, last)
      modifies this, store
      ensures Valid(genesis) && lastHeight == last && silent == known
      ensures old(store.db) != EMPTY_DATABASE ==> store.db == old(store.db)
    {
      hide Consistent, Blocks.HistoryUpTo, PlaceOf;
      Initialize(genesis, last, known);
      lastHeight := MaxBlockHeight(store.db.blocks.history);
      silent := known;
      assert Blocks.HistoryUpTo(cfg, chain, store.db.blocks.history, last) by {
        ConsistentHistory(cfg, chain, genesis, known, store.db, last);
      }
      LastIsMax(cfg, chain, store.db.blocks.history, last, lastHeight);
    }

    /** buildIndex: every protocol handles the block within one transaction. */
    method BuildIndex(ghost genesis: map<Str, int>, blk: Block, out: Outage)
      returns (outcome: Outcome, ghost w: Work)
      requires Valid(genesis) && blk == chain.block(lastHeight + 1)
      modifies store, blocks, rewards
      ensures outcome.Fail? ==> store.db == old(store.db) && Valid(genesis)
      ensures outcome.Fail?
              <==> Blocked(cfg, chain, lastHeight + 1, out, old(Memories()), old(store.db), w.settlement.rankings)
      ensures outcome.Fail? ==> Obstacle(cfg, chain, lastHeight + 1, out, store.db)
      ensures Stuck(cfg, chain, lastHeight + 1) || old(Unclosable(cfg, store.db, lastHeight + 1)) ==> outcome.Fail?
      ensures Healthy(cfg, chain) && out == {} ==> outcome.Pass?
      ensures outcome.Pass? ==>
                && Consistent(cfg, chain, genesis, BalanceHistory.SilentAfter(silent, lastHeight + 1, out), store.db,
                              lastHeight + 1)
                && OnlyGrows(old(store.db), store.db)
                && MemoryFits(cfg, chain, Memories(), lastHeight + 2)
    {
      hide Obstacle, Blocked, Stuck, Unclosable, Indexed, Healthy, Consistent, ChainOk, PlaceOf, Blocks.HandledAt,
           Rewards.Handled, Votings.Handled, Accounts.Handled, OnlyGrows, MemoryFits, Rewards.ClosingAt,
           Blocks.BlocksProtocol.Memory, Rewards.Closing.UniqueNames, Votings.UniqueRows, Paging.FitsOffsets,
           Votings.RateFits;
      ghost var db, m := store.db, Memories();
      var tx := store.Begin();
      Usable(cfg, chain, genesis, silent, db, lastHeight);
      outcome, w := HandleAll(tx, blk, out, Rewards.ClosingAt(cfg, PlaceOf(cfg.epochCtx, blk.height), db.votings.result,
                                                               db.rewards.history, db.blocks.history));
      store.End(tx, outcome);
      if outcome.Pass? {
        IndexingStaysConsistent(cfg, chain, genesis, silent, lastHeight, out, m, db, w, Memories(), store.db);
        if Stuck(cfg, chain, lastHeight + 1) || Unclosable(cfg, db, lastHeight + 1) {
          StuckBlocks(cfg, chain, genesis, silent, lastHeight, out, m, db, w, Memories(), store.db);
        }
      } else {
        BlockedAfterRestart(cfg, chain, lastHeight + 1, out, m, db, w.settlement.rankings);
        FailedStaysFit(cfg, chain, genesis, silent, lastHeight, m, db, Memories(), tx.blocks, outcome);
        if Healthy(cfg, chain) { HealthyAdvances(cfg, chain, genesis, silent, db, lastHeight); }
      }
    }

    /** The loop over the protocols in the order of their registration: blocks, actions, rewards, votings,
        accounts. It stops at the first that fails. */
    method HandleAll(tx: Tx, blk: Block, out: Outage, ghost c: Rewards.Closing)
      returns (outcome: Outcome, ghost w: Work)
      requires Wired() && Assumptions() && blk.height > 0 && blk == chain.block(blk.height)
      requires tx.blocks == store.db.blocks && tx.rewards == store.db.rewards
      requires tx.votings == store.db.votings && tx.accounts == store.db.accounts
      requires c == Rewards.ClosingAt(cfg, PlaceOf(cfg.epochCtx, blk.height), store.db.votings.result,
                                      store.db.rewards.history, store.db.blocks.history)
      requires c.UniqueNames() && Votings.UniqueRows(store.db.votings.result)
      modifies tx, blocks, rewards
      ensures LeftBehind(cfg, chain, PlaceOf(cfg.epochCtx, blk.height), blk, old(Memories()), store.db.blocks,
                         Memories(), tx.blocks, outcome)
      ensures outcome.Pass? ==>
                Indexed(cfg, chain, blk.height, out, old(Memories()), store.db, w, Memories(),
                        Database(tx.blocks, tx.accounts, tx.rewards, tx.votings))
      ensures outcome.Fail?
              <==> Blocked(cfg, chain, blk.height, out, old(Memories()), store.db, w.settlement.rankings)
    {
      hide RewardNames.NamesHandled, RewardNames.Named, Blocks.Fails, Rewards.Fails, Votings.Fails, PlaceOf,
           Blocks.HandledAt, Rewards.Handled, Votings.Handled, Accounts.Handled, Rewards.Closing.UniqueNames,
           Votings.UniqueRows, Paging.FitsOffsets, Votings.RateFits, Blocks.BlocksProtocol.Memory, Rewards.ClosingAt;
      w := Work([], Rewards.Settlement(map[], map[], []), Votings.NOTHING);
      outcome := blocks.HandleBlock(tx, chain, blk, out);
      if outcome.Fail? { return; }
      if ActionsCall in out { return Fail(ClientError), w; }
      ghost var s;
      outcome, s := rewards.HandleBlock(tx, store.db.blocks.history, chain, blk, out, c);
      w := w.(settlement := s);
      if outcome.Fail? { return; }
      ghost var f;
      outcome, f := votings.HandleBlock(tx, store.db.votings.result, chain, blk, out);
      if outcome.Fail? { return; }
      ghost var rows := accounts.HandleBlock(tx, chain, blk, out);
      w := w.(rows := rows, filling := f);
    }

    /** IndexInBatch. */
    method IndexInBatch(ghost genesis: map<Str, int>, tipHeight: nat, weather: Weather) returns (outcome: Outcome)
      requires Valid(genesis)
      modifies this, store, blocks, rewards
      ensures Valid(genesis) && OnlyGrows(old(store.db), store.db)
      ensures outcome.Pass? ==> lastHeight == if tipHeight > old(lastHeight) then tipHeight else old(lastHeight)
      ensures outcome.Fail? ==> old(lastHeight) <= lastHeight < tipHeight
      ensures outcome.Fail? ==> weather.unreachable(lastHeight + 1)
                                || Obstacle(cfg, chain, lastHeight + 1, weather.outage(lastHeight + 1), store.db)
      ensures Healthy(cfg, chain) && CalmWeather(weather) ==> outcome.Pass?
      ensures lastHeight == old(lastHeight) ==> store.db == old(store.db)
      ensures forall h :: old(lastHeight) < h && Stuck(cfg, chain, h) ==> lastHeight < h
      ensures SilentIn(old(silent), silent, weather, old(lastHeight), lastHeight)
    {
      hide Obstacle, Blocked, Stuck, Unclosable, Healthy, Consistent, OnlyGrows, MemoryFits, SilentIn, CalmWeather,
           BalanceHistory.SilentAfter, Blocks.BlocksProtocol.Memory, ChainOk, Sound;
      var startHeight := lastHeight + 1;
      NothingSilenced(silent, weather, lastHeight);
      GrowsFromItself(store.db);
      while startHeight <= tipHeight
        invariant Valid(genesis) && startHeight == lastHeight + 1 && OnlyGrows(old(store.db), store.db)
        invariant old(lastHeight) <= lastHeight && (lastHeight <= tipHeight || lastHeight == old(lastHeight))
        invariant lastHeight == old(lastHeight) ==> store.db == old(store.db)
        invariant forall h :: old(lastHeight) < h && Stuck(cfg, chain, h) ==> lastHeight < h
        invariant SilentIn(old(silent), silent, weather, old(lastHeight), lastHeight)
        decreases tipHeight + 1 - startHeight
      {
        var count := cfg.rangeQueryLimit;
        if cfg.rangeQueryLimit > tipHeight - startHeight + 1 {
          count := tipHeight - startHeight + 1;
        }
        if weather.unreachable(startHeight) {
          NotCalm(weather, startHeight);
          return Fail(ClientError);
        }
        for i := 0 to count
          invariant Valid(genesis) && lastHeight + 1 == startHeight + i && OnlyGrows(old(store.db), store.db)
          invariant lastHeight == old(lastHeight) ==> store.db == old(store.db)
          invariant forall h :: old(lastHeight) < h && Stuck(cfg, chain, h) ==> lastHeight < h
          invariant SilentIn(old(silent), silent, weather, old(lastHeight), lastHeight)
        {
          ghost var before := store.db;
          var blk := chain.block(startHeight + i);
          ghost var w;
          outcome, w := BuildIndex(genesis, blk, weather.outage(startHeight + i));
          if outcome.Fail? {
            NotCalm(weather, startHeight + i);
            return;
          }
          GrowsTwice(old(store.db), before, store.db);
          SilencedNext(old(silent), silent, weather, old(lastHeight), lastHeight);
          assert blk.height == startHeight + i by { BlockHeights(chain, startHeight + i); }
          silent := BalanceHistory.SilentAfter(silent, blk.height, weather.outage(blk.height));
          lastHeight := blk.height;
        }
        startHeight := startHeight + count;
      }
      outcome := Pass;
    }
  }

  /* ---------- lemmas for the methods ---------- */

  /** What an attempt at a block can leave in memory. A protocol that was reached may have refreshed its part,
      also if a later one then failed; a protocol that was not has left it alone. */
  ghost predicate LeftBehind(cfg: Config, chain: Chain, p: Place, blk: Block, m: Memory, t: BlocksTables, m': Memory,
                             t': BlocksTables, outcome: Outcome)
    requires p.epoch > 0
  {
    && (exists done ::
          Blocks.HandledAt(cfg, chain, p, blk, m.delegates, t, m'.delegates, t', done)
            && (outcome.Pass? ==> done.Pass?))
    && (m'.names == m.names || exists done :: RewardNames.NamesHandled(cfg, chain, p, m.names, m'.names, done))
  }

  lemma NothingSilenced(silent: set<nat>, weather: Weather, h: nat)
    ensures SilentIn(silent, silent, weather, h, h)
  {}

  lemma SilencedNext(before: set<nat>, silent: set<nat>, weather: Weather, from: nat, last: nat)
    requires from <= last && SilentIn(before, silent, weather, from, last)
    ensures SilentIn(before, BalanceHistory.SilentAfter(silent, last + 1, weather.outage(last + 1)), weather, from,
                     last + 1)
  {}

  lemma NotCalm(weather: Weather, h: nat)
    ensures weather.unreachable(h) || weather.outage(h) != {} ==> !CalmWeather(weather)
  {}

  lemma BlockHeights(chain: Chain, h: nat)
    requires ChainOk(chain)
    ensures chain.block(h).height == h
  {}

  lemma ConsistentHistory(cfg: Config, chain: Chain, genesis: map<Str, int>, silent: set<nat>, db: Database, last: nat)
    requires Sound(cfg) && ChainOk(chain) && Consistent(cfg, chain, genesis, silent, db, last)
    ensures Blocks.HistoryUpTo(cfg, chain, db.blocks.history, last)
  {
    hide PlaceOf, Blocks.HistoryUpTo, Blocks.Views, Accounts.Views, VotingViews.Views;
  }

  /** What a consistent database offers to the protocols that read it outside their transaction. */
  lemma Usable(cfg: Config, chain: Chain, genesis: map<Str, int>, silent: set<nat>, db: Database, last: nat)
    requires Sound(cfg) && ChainOk(chain) && Consistent(cfg, chain, genesis, silent, db, last)
    ensures chain.block(last + 1).height == last + 1
    ensures Rewards.ClosingAt(cfg, PlaceOf(cfg.epochCtx, last + 1), db.votings.result, db.rewards.history,
                              db.blocks.history).UniqueNames()
    ensures Votings.UniqueRows(db.votings.result)
  {
    hide PlaceOf, Blocks.HistoryUpTo, Blocks.Views, Accounts.Views, VotingViews.Views, VotingViews.Sane;
    VotingsAreUsable(cfg, chain, db.votings, OpenEpoch(cfg, last), PlaceOf(cfg.epochCtx, last + 1), db.rewards.history,
                     db.blocks.history);
  }

  /** A failed attempt is rolled back; what it leaves in memory still fits a retry. */
  lemma FailedStaysFit(cfg: Config, chain: Chain, genesis: map<Str, int>, silent: set<nat>, last: nat, m: Memory,
                       db: Database, m': Memory, t: BlocksTables, outcome: Outcome)
    requires Sound(cfg) && ChainOk(chain) && Consistent(cfg, chain, genesis, silent, db, last)
    requires MemoryFits(cfg, chain, m, last + 1) && outcome.Fail?
    requires LeftBehind(cfg, chain, PlaceOf(cfg.epochCtx, last + 1), chain.block(last + 1), m, db.blocks, m', t,
                        outcome)
    ensures MemoryFits(cfg, chain, m', last + 1)
  {
    BlockHeights(chain, last + 1);
    ConsistentHistory(cfg, chain, genesis, silent, db, last);
    ConsistentNames(cfg, chain, genesis, silent, db, last);
    hide PlaceOf, Blocks.HistoryUpTo, Consistent, Blocks.HandledAt, Blocks.MemoryFits, RewardNames.NamesHandled,
         RewardNames.NamesFit, RewardNames.NamesKnown, ChainOk;
    var p, blk := PlaceOf(cfg.epochCtx, last + 1), chain.block(last + 1);
    var done :| Blocks.HandledAt(cfg, chain, p, blk, m.delegates, db.blocks, m'.delegates, t, done);
    RefreshedFits(cfg, chain, p, blk, m.delegates, db.blocks, m'.delegates, t, done, outcome);
    Blocks.HandlingKeepsHistory(cfg, chain, last, m.delegates, db.blocks, m'.delegates, t, outcome);
    if m'.names != m.names {
      var handled :| RewardNames.NamesHandled(cfg, chain, p, m.names, m'.names, handled);
      NamesLeftFit(cfg, chain, p, m.names, m'.names, handled, outcome);
      RewardNames.HandlingKeepsNames(cfg, chain, last, m.names, m'.names, outcome);
    }
  }

  /** Memory refreshed for a block that another protocol then failed on is like memory of a failed refresh. */
  lemma RefreshedFits(cfg: Config, chain: Chain, p: Place, blk: Block, m: Blocks.Delegates, t: BlocksTables,
                      m': Blocks.Delegates, t': BlocksTables, done: Outcome, failed: Outcome)
    requires p.epoch > 0 && failed.Fail? && Blocks.HandledAt(cfg, chain, p, blk, m, t, m', t', done)
    ensures Blocks.HandledAt(cfg, chain, p, blk, m, t, m', t', failed)
  {
    hide Blocks.Closed, Blocks.RowOf, Blocks.DelegatesFor;
  }

  lemma NamesLeftFit(cfg: Config, chain: Chain, p: Place, names: RewardNames.Names, names': RewardNames.Names,
                     done: Outcome, failed: Outcome)
    requires failed.Fail? && RewardNames.NamesHandled(cfg, chain, p, names, names', done)
    ensures RewardNames.NamesHandled(cfg, chain, p, names, names', failed)
  {
    hide RewardNames.NamesAtPlace;
  }

  lemma ConsistentNames(cfg: Config, chain: Chain, genesis: map<Str, int>, silent: set<nat>, db: Database, last: nat)
    requires Sound(cfg) && ChainOk(chain) && Consistent(cfg, chain, genesis, silent, db, last)
    ensures RewardNames.NamesKnown(cfg, chain, last)
  {
    hide PlaceOf, Blocks.HistoryUpTo, Blocks.Views, Accounts.Views, VotingViews.Views, RewardNames.NamesKnown;
  }

  lemma InitializedOnce(cfg: Config, chain: Chain, genesis: map<Str, int>, silent: set<nat>, db: Database, last: nat,
                        rows: seq<BalanceRow>, db': Database)
    requires Sound(cfg) && ChainOk(chain)
    requires (db == EMPTY_DATABASE && last == 0 && silent == {}) || Consistent(cfg, chain, genesis, silent, db, last)
    requires Accounts.HasGenesis(db.accounts.balance) ==> db' == db
    requires !Accounts.HasGenesis(db.accounts.balance) ==>
               Accounts.GenesisRows(rows, genesis, genesis.Keys)
                 && db' == db.(accounts := Accounts.WithRows(db.accounts, rows))
    ensures Consistent(cfg, chain, genesis, silent, db', last)
    ensures db != EMPTY_DATABASE ==> db' == db
  {
    hide PlaceOf, Consistent, Accounts.HasGenesis, Accounts.GenesisRows;
    if db == EMPTY_DATABASE && last == 0 {
      NoGenesisAtFirst(db);
      if Consistent(cfg, chain, genesis, silent, db, last) { NothingSilentAtFirst(cfg, chain, genesis, silent, db); }
      GenesisConsistent(cfg, chain, genesis, rows);
    } else if !Accounts.HasGenesis(db.accounts.balance) {
      NoGenesisToWrite(cfg, chain, genesis, silent, db, last);
      NoGenesisNoRows(rows, genesis);
      assert db.accounts.balance + [] == db.accounts.balance;
    }
  }

  lemma NoGenesisAtFirst(db: Database)
    requires db == EMPTY_DATABASE
    ensures !Accounts.HasGenesis(db.accounts.balance)
  {}

  lemma NothingSilentAtFirst(cfg: Config, chain: Chain, genesis: map<Str, int>, silent: set<nat>, db: Database)
    requires Sound(cfg) && ChainOk(chain) && Consistent(cfg, chain, genesis, silent, db, 0)
    ensures silent == {}
  {
    hide PlaceOf, ChainOk, Blocks.HistoryUpTo, Blocks.Views, Accounts.Views, VotingViews.Views, RewardNames.NamesKnown,
         RewardNames.HistoryNamed, RewardConservation.Accounted, RewardView.SettledUpTo, BalanceHistory.BalanceUpTo;
    assert BalanceHistory.Past(silent, 0);
  }

  /** A database that holds no genesis rows had none to hold. */
  lemma NoGenesisToWrite(cfg: Config, chain: Chain, genesis: map<Str, int>, silent: set<nat>, db: Database, last: nat)
    requires Sound(cfg) && ChainOk(chain) && Consistent(cfg, chain, genesis, silent, db, last)
    requires !Accounts.HasGenesis(db.accounts.balance)
    ensures genesis.Keys == {}
  {
    hide PlaceOf, ChainOk, Blocks.HistoryUpTo, Blocks.Views, Accounts.Views, VotingViews.Views, RewardNames.NamesKnown,
         RewardNames.HistoryNamed, RewardConservation.Accounted, RewardView.SettledUpTo, BalanceHistory.BalanceUpTo,
         Accounts.HasGenesis;
    BalanceHistory.GenesisStays(cfg.epochCtx, chain, genesis, silent, db.accounts.balance, last);
  }

  lemma NoGenesisNoRows(rows: seq<BalanceRow>, genesis: map<Str, int>)
    requires Accounts.GenesisRows(rows, genesis, genesis.Keys) && genesis.Keys == {}
    ensures rows == []
  {
    if |rows| > 0 { FirstGenesis(rows, genesis); }
  }

  lemma FirstGenesis(rows: seq<BalanceRow>, genesis: map<Str, int>)
    requires Accounts.GenesisRows(rows, genesis, genesis.Keys) && |rows| > 0
    ensures rows[0].to in genesis.Keys
  {}

  /* ---------- whole runs ---------- */

  /** The highest of the first n tips. */
  function MaxTip(events: seq<Event>, n: nat): nat
    requires n <= |events|
  {
    if n == 0 then 0
    else
      var m := MaxTip(events, n - 1);
      match events[n - 1]
      case NewTip(tip, _) => if tip > m then tip else m
      case Restart => m
  }

  /** No transaction-log call fails. */
  ghost predicate LogsAnswer(events: seq<Event>, n: nat)
    requires n <= |events|
  {
    forall i, h :: 0 <= i < n && events[i].NewTip? ==> TransactionLogCall !in events[i].weather.outage(h)
  }

  /** No call fails. */
  ghost predicate Calm(events: seq<Event>, n: nat)
    requires n <= |events|
  {
    forall i :: 0 <= i < n && events[i].NewTip? ==> CalmWeather(events[i].weather)
  }

  /** The life of an indexer from an empty database on: any sequence of tips, in any order, each with its own
      failures, and of restarts. The database is consistent at the height reached, which no tip falls below
      unless its batch failed. On a healthy chain no batch fails unless a call does. */
  method Run(cfg: Config, chain: Chain, genesis: map<Str, int>, events: seq<Event>)
    returns (idx: Indexer, failures: nat)
    requires Sound(cfg) && ChainOk(chain) && cfg.rangeQueryLimit >= 1
    ensures idx.cfg == cfg && idx.chain == chain && idx.Valid(genesis)
    ensures idx.lastHeight <= MaxTip(events, |events|)
    ensures failures == 0 ==> idx.lastHeight == MaxTip(events, |events|)
    ensures LogsAnswer(events, |events|) ==> idx.silent == {}
    ensures Healthy(cfg, chain) && Calm(events, |events|) ==> idx.lastHeight == MaxTip(events, |events|)
    ensures forall h :: h > 0 && Stuck(cfg, chain, h) ==> idx.lastHeight < h
  {
    hide Consistent, MemoryFits, OnlyGrows, ChainOk, Sound, Obstacle, Stuck, Healthy, CalmWeather,
         Blocks.BlocksProtocol.Memory;
    var store := new StoreBase(EMPTY_DATABASE);
    idx := new Indexer(store, cfg, chain);
    failures := 0;
    idx.Start(genesis, 0, {});
    for i := 0 to |events|
      invariant fresh(store) && fresh(idx) && fresh(idx.blocks) && fresh(idx.rewards) && idx.store == store
      invariant idx.cfg == cfg && idx.chain == chain && idx.Valid(genesis)
      invariant idx.lastHeight <= MaxTip(events, i)
      invariant failures == 0 ==> idx.lastHeight == MaxTip(events, i)
      invariant LogsAnswer(events, i) ==> idx.silent == {}
      invariant Healthy(cfg, chain) && Calm(events, i) ==> failures == 0
      invariant forall h :: h > 0 && Stuck(cfg, chain, h) ==> idx.lastHeight < h
    {
      match events[i] {
        case NewTip(tip, weather) =>
          var outcome := idx.IndexInBatch(genesis, tip, weather);
          if outcome.Fail? { failures := failures + 1; }
        case Restart =>
          ghost var last, silent := idx.lastHeight, idx.silent;
          idx := new Indexer(store, cfg, chain);
          idx.Start(genesis, last, silent);
      }
    }
  }
}
