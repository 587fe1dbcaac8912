/** What reward_history adds up, log by log (indexprotocol/rewards/protocol.go): every sum over its rows is a sum over
    the positions of the chain's reward logs, each taken once. */
module GrantSums {
  import opened Bytes
  import opened Schema
  import opened Sql
  import opened EpochContext
  import opened Rewards
  import opened RewardConservation
  import Rotation

  /** A log of the chain: the height of its block, the position of its receipt there, and its own in the receipt. */
  type LogPosition = (nat, nat, nat)

  /** There is a reward log at the position, written by a grant-reward action of its block. */
  predicate GrantAt(chain: Chain, p: LogPosition) {
    var blk := chain.block(p.0);
    && p.1 < |blk.receipts| && blk.receipts[p.1].actionHash in blk.grantRewards
    && p.2 < |blk.receipts[p.1].logs| && blk.receipts[p.1].logs[p.2].Granted?
  }

  function LogAt(chain: Chain, p: LogPosition): RewardLog
    requires GrantAt(chain, p)
  {
    chain.block(p.0).receipts[p.1].logs[p.2]
  }

  /** The amount granted at a position. */
  function Granted(chain: Chain): LogPosition -> int {
    p => if GrantAt(chain, p) then LogAt(chain, p).amount else 0
  }

  /** Height h is one of the epoch's, and not above the last one indexed. */
  predicate Within(cfg: Config, e: nat, last: nat, h: nat)
    requires cfg.epochCtx.Divisors()
  {
    1 <= h <= last && cfg.epochCtx.GetEpochHeight(e) <= h < cfg.epochCtx.GetEpochHeight(e + 1)
  }

  /** All grants of a kind in an epoch. */
  ghost function Grants(cfg: Config, chain: Chain, e: nat, kind: RewardKind, last: nat): set<LogPosition>
    requires cfg.epochCtx.Divisors()
  {
    set h: nat, i: nat, j: nat
      | 1 <= h <= last && i < |chain.block(h).receipts| && j < |chain.block(h).receipts[i].logs|
        && Within(cfg, e, last, h) && GrantAt(chain, (h, i, j)) && LogAt(chain, (h, i, j)).kind == kind
      :: (h, i, j)
  }

  /** Those to one address. */
  ghost function GrantsTo(cfg: Config, chain: Chain, e: nat, kind: RewardKind, addr: Str, last: nat): set<LogPosition>
    requires cfg.epochCtx.Divisors()
  {
    set p | p in Grants(cfg, chain, e, kind, last) && LogAt(chain, p).addr == addr
  }

  /* ---------- from one receipt to the chain ---------- */

  ghost predicate GrantsOf(chain: Chain, kind: RewardKind, addr: Str, p: LogPosition) {
    GrantAt(chain, p) && LogAt(chain, p).kind == kind && LogAt(chain, p).addr == addr
  }

  /** The grants of the first n logs of a receipt. */
  ghost function InReceipt(chain: Chain, h: nat, i: nat, kind: RewardKind, addr: Str, n: nat): set<LogPosition> {
    set j: nat | j < n && GrantsOf(chain, kind, addr, (h, i, j)) :: (h, i, j)
  }

  /** The grants of the first n receipts of a block. */
  ghost function InBlock(chain: Chain, h: nat, kind: RewardKind, addr: Str, n: nat): set<LogPosition>
    requires n <= |chain.block(h).receipts|
  {
    set i: nat, j: nat | i < n && j < |chain.block(h).receipts[i].logs| && GrantsOf(chain, kind, addr, (h, i, j))
      :: (h, i, j)
  }

  lemma OneMoreLog(chain: Chain, h: nat, i: nat, kind: RewardKind, addr: Str, n: nat)
    requires n > 0
    ensures var before := InReceipt(chain, h, i, kind, addr, n - 1);
            && (h, i, n - 1) !in before
            && InReceipt(chain, h, i, kind, addr, n)
               == if GrantsOf(chain, kind, addr, (h, i, n - 1)) then before + {(h, i, n - 1)} else before
  {
    hide GrantsOf;
  }

  lemma OneMoreAmount(chain: Chain, h: nat, i: nat, kind: RewardKind, addr: Str, n: nat)
    requires i < |chain.block(h).receipts| && 0 < n <= |chain.block(h).receipts[i].logs|
    requires chain.block(h).receipts[i].actionHash in chain.block(h).grantRewards
    ensures var logs := chain.block(h).receipts[i].logs;
            LogsTotalTo(logs, kind, addr, n)
            == LogsTotalTo(logs, kind, addr, n - 1)
               + if GrantsOf(chain, kind, addr, (h, i, n - 1)) then Granted(chain)((h, i, n - 1)) else 0
  {}

  lemma NothingInReceipt(chain: Chain, h: nat, i: nat, kind: RewardKind, addr: Str, logs: seq<RewardLog>)
    ensures SumSet(InReceipt(chain, h, i, kind, addr, 0), Granted(chain)) == 0 == LogsTotalTo(logs, kind, addr, 0)
  {}

  lemma {:induction false} ReceiptAddsUp(chain: Chain, h: nat, i: nat, kind: RewardKind, addr: Str, n: nat)
    requires i < |chain.block(h).receipts| && n <= |chain.block(h).receipts[i].logs|
    requires chain.block(h).receipts[i].actionHash in chain.block(h).grantRewards
    ensures SumSet(InReceipt(chain, h, i, kind, addr, n), Granted(chain))
            == LogsTotalTo(chain.block(h).receipts[i].logs, kind, addr, n)
  {
    hide *;
    if n == 0 {
      NothingInReceipt(chain, h, i, kind, addr, chain.block(h).receipts[i].logs);
    } else {
      ReceiptAddsUp(chain, h, i, kind, addr, n - 1);
      OneMoreLog(chain, h, i, kind, addr, n);
      OneMoreAmount(chain, h, i, kind, addr, n);
      var p: LogPosition := (h, i, n - 1);
      SumSetAdd(InReceipt(chain, h, i, kind, addr, n - 1), Granted(chain), p);
    }
  }

  lemma OneMoreReceipt(chain: Chain, h: nat, kind: RewardKind, addr: Str, n: nat)
    requires 0 < n <= |chain.block(h).receipts|
    ensures var blk, before := chain.block(h), InBlock(chain, h, kind, addr, n - 1);
            var added := InReceipt(chain, h, n - 1, kind, addr, |blk.receipts[n - 1].logs|);
            && before !! added
            && InBlock(chain, h, kind, addr, n)
               == if blk.receipts[n - 1].actionHash in blk.grantRewards then before + added else before
  {
    if chain.block(h).receipts[n - 1].actionHash in chain.block(h).grantRewards {
      hide GrantsOf;
    }
  }

  lemma {:induction false} BlockAddsUp(chain: Chain, h: nat, kind: RewardKind, addr: Str, n: nat)
    requires n <= |chain.block(h).receipts|
    ensures SumSet(InBlock(chain, h, kind, addr, n), Granted(chain))
            == ReceiptsTotalTo(chain.block(h), kind, addr, n)
  {
    if n > 0 {
      BlockAddsUp(chain, h, kind, addr, n - 1);
      OneMoreReceipt(chain, h, kind, addr, n);
      var blk, before := chain.block(h), InBlock(chain, h, kind, addr, n - 1);
      var i, m := n - 1, |blk.receipts[n - 1].logs|;
      hide InBlock, InReceipt, LogsTotalTo;
      if blk.receipts[i].actionHash in blk.grantRewards {
        ReceiptAddsUp(chain, h, i, kind, addr, m);
        SumSetUnion(before, InReceipt(chain, h, i, kind, addr, m), Granted(chain));
      }
    }
  }

  lemma LastWithin(cfg: Config, e: nat, n: nat)
    requires Sound(cfg) && e > 0 && n > 0
    ensures Within(cfg, e, n, n) <==> PlaceOf(cfg.epochCtx, n).epoch == e
  {
    Rotation.EpochRange(cfg.epochCtx, n, e);
  }

  lemma OneMoreTotal(cfg: Config, chain: Chain, e: nat, kind: RewardKind, addr: Str, n: nat)
    requires Sound(cfg) && e > 0 && n > 0
    ensures ChainTotalTo(cfg, chain, e, kind, addr, n)
            == ChainTotalTo(cfg, chain, e, kind, addr, n - 1)
               + if Within(cfg, e, n, n) then ReceiptsTotalTo(chain.block(n), kind, addr, |chain.block(n).receipts|)
                 else 0
  {
    LastWithin(cfg, e, n);
    hide PlaceOf, Within, ReceiptsTotalTo, Sound;
  }

  lemma NoGrantsYet(cfg: Config, chain: Chain, e: nat, kind: RewardKind, addr: Str)
    requires Sound(cfg)
    ensures ChainTotalTo(cfg, chain, e, kind, addr, 0) == 0
    ensures SumSet(GrantsTo(cfg, chain, e, kind, addr, 0), Granted(chain)) == 0
  {
    assert GrantsTo(cfg, chain, e, kind, addr, 0) == {};
  }

  lemma {:induction false} ChainAddsUp(cfg: Config, chain: Chain, e: nat, kind: RewardKind, addr: Str, n: nat)
    requires Sound(cfg) && e > 0
    ensures SumSet(GrantsTo(cfg, chain, e, kind, addr, n), Granted(chain))
            == ChainTotalTo(cfg, chain, e, kind, addr, n)
  {
    SoundDivides(cfg);
    hide *;
    if n == 0 {
      NoGrantsYet(cfg, chain, e, kind, addr);
    } else {
      ChainAddsUp(cfg, chain, e, kind, addr, n - 1);
      BlockAddsUp(chain, n, kind, addr, |chain.block(n).receipts|);
      OneMoreBlock(cfg, chain, e, kind, addr, n);
      OneMoreTotal(cfg, chain, e, kind, addr, n);
      SumSetUnion(GrantsTo(cfg, chain, e, kind, addr, n - 1),
                  InBlock(chain, n, kind, addr, |chain.block(n).receipts|), Granted(chain));
    }
  }

  lemma SoundDivides(cfg: Config)
    requires Sound(cfg)
    ensures cfg.epochCtx.Divisors() && cfg.epochCtx.dardanellesHeight > 0
  {}

  lemma GrantsAre(cfg: Config, chain: Chain, e: nat, kind: RewardKind, addr: Str, n: nat)
    requires cfg.epochCtx.Divisors()
    ensures forall p :: p in GrantsTo(cfg, chain, e, kind, addr, n)
                        <==> Within(cfg, e, n, p.0) && GrantsOf(chain, kind, addr, p)
  {
    hide EpochCtx.GetEpochHeight;
  }

  lemma BlockGrantsAre(chain: Chain, h: nat, kind: RewardKind, addr: Str)
    ensures forall p :: p in InBlock(chain, h, kind, addr, |chain.block(h).receipts|)
                        <==> p.0 == h && GrantsOf(chain, kind, addr, p)
  {}

  lemma OneMoreBlock(cfg: Config, chain: Chain, e: nat, kind: RewardKind, addr: Str, n: nat)
    requires Sound(cfg) && n > 0
    ensures var before, added :=
              GrantsTo(cfg, chain, e, kind, addr, n - 1), InBlock(chain, n, kind, addr, |chain.block(n).receipts|);
            && before !! added
            && GrantsTo(cfg, chain, e, kind, addr, n) == if Within(cfg, e, n, n) then before + added else before
  {
    GrantsAre(cfg, chain, e, kind, addr, n - 1);
    GrantsAre(cfg, chain, e, kind, addr, n);
    BlockGrantsAre(chain, n, kind, addr);
    hide EpochCtx.GetEpochHeight, Sound, GrantsTo, InBlock, GrantsOf;
  }

  /* ---------- from addresses to all ---------- */

  /** The elements with a key. */
  ghost function WithKey<T, K>(s: set<T>, key: T -> K, k: K): set<T> {
    set x | x in s && key(x) == k
  }

  /** Sums by key add up to the sum over all elements. */
  lemma {:induction false} SumByKey<T, K(!new)>(s: set<T>, key: T -> K, keys: set<K>, f: T -> int, g: K -> int)
    requires forall x :: x in s ==> key(x) in keys
    requires forall k :: k in keys ==> g(k) == SumSet(WithKey(s, key, k), f)
    ensures SumSet(keys, g) == SumSet(s, f)
    decreases keys
  {
    if keys == {} {
      assert s == {};
    } else {
      var k :| k in keys;
      var mine, rest := WithKey(s, key, k), s - WithKey(s, key, k);
      forall l | l in keys - {k} ensures g(l) == SumSet(WithKey(rest, key, l), f) {
        assert WithKey(rest, key, l) == WithKey(s, key, l);
      }
      SumByKey(rest, key, keys - {k}, f, g);
      SumSetPick(keys, g, k);
      SumSetUnion(mine, rest, f);
      assert mine + rest == s;
    }
  }

  function Receiver(chain: Chain): LogPosition -> Str {
    p => if GrantAt(chain, p) then LogAt(chain, p).addr else []
  }

  lemma GrantedInBlock(blk: Block, i: nat, j: nat, n: nat)
    requires i < n <= |blk.receipts| && blk.receipts[i].actionHash in blk.grantRewards
    requires j < |blk.receipts[i].logs| && blk.receipts[i].logs[j].Granted?
    ensures blk.receipts[i].logs[j].addr in GrantedTo(blk, n)
    decreases n
  {
    if i < n - 1 { GrantedInBlock(blk, i, j, n - 1); }
  }

  lemma {:induction false} GrantedOnChain(cfg: Config, chain: Chain, e: nat, p: LogPosition, n: nat)
    requires Sound(cfg) && e > 0 && GrantAt(chain, p) && Within(cfg, e, n, p.0)
    ensures LogAt(chain, p).addr in ChainGrantedTo(cfg, chain, e, n)
  {
    if p.0 == n {
      Rotation.EpochRange(cfg.epochCtx, n, e);
      hide EpochCtx.GetEpochHeight, EpochCtx.GetEpochNumber;
      GrantedInBlock(chain.block(n), p.1, p.2, |chain.block(n).receipts|);
    } else {
      GrantedOnChain(cfg, chain, e, p, n - 1);
    }
  }

  /* ---------- the columns of reward_history ---------- */

  /** The rows of an epoch. */
  ghost function RowsOfEpoch(rows: seq<RewardRow>, e: nat): set<nat> {
    set i: nat | i < |rows| && rows[i].epoch == e
  }

  /** Those of an address. */
  ghost function RowsOfAddress(rows: seq<RewardRow>, e: nat, addr: Str): set<nat> {
    set i: nat | i < |rows| && rows[i].epoch == e && rows[i].rewardAddress == addr
  }

  function BlockColumn(rows: seq<RewardRow>): nat -> int {
    (i: nat) => if i < |rows| then rows[i].reward.blockReward else 0
  }

  function EpochColumn(rows: seq<RewardRow>): nat -> int {
    (i: nat) => if i < |rows| then rows[i].reward.epochReward else 0
  }

  function BonusColumn(rows: seq<RewardRow>): nat -> int {
    (i: nat) => if i < |rows| then rows[i].reward.foundationBonus else 0
  }

  function Column(rows: seq<RewardRow>, kind: RewardKind): nat -> int {
    match kind
    case BlockReward => BlockColumn(rows)
    case EpochReward => EpochColumn(rows)
    case FoundationBonus => BonusColumn(rows)
  }

  lemma ColumnOfAddress(rows: seq<RewardRow>, e: nat, kind: RewardKind, addr: Str)
    ensures SumSet(RowsOfAddress(rows, e, addr), Column(rows, kind)) == HistoryTotal(rows, e, kind, addr)
  {
    TotalIsSum(rows, RewardSums(kind), e, addr, Column(rows, kind), |rows|);
    assert Selected(rows, RewardSums(kind), e, addr, |rows|) == RowsOfAddress(rows, e, addr);
  }

  lemma ColumnOfEpoch(rows: seq<RewardRow>, e: nat, kind: RewardKind)
    ensures SumSet(RowsOfEpoch(rows, e), Column(rows, kind)) == EpochSum(rows, RewardSums(kind), e)
  {
    EpochSumIsSum(rows, RewardSums(kind), e, Column(rows, kind), |rows|);
    assert OfEpoch(rows, RewardSums(kind), e, |rows|) == RowsOfEpoch(rows, e);
  }

  /* ---------- reward_history against the chain ---------- */

  /** What the logs of the chain grant to an address in an epoch, of each kind. */
  ghost function GrantedReward(cfg: Config, chain: Chain, e: nat, addr: Str, last: nat): Reward
    requires cfg.epochCtx.Divisors()
  {
    var amount := Granted(chain);
    Reward(SumSet(GrantsTo(cfg, chain, e, BlockReward, addr, last), amount),
           SumSet(GrantsTo(cfg, chain, e, EpochReward, addr, last), amount),
           SumSet(GrantsTo(cfg, chain, e, FoundationBonus, addr, last), amount))
  }

  /** What the logs of the chain grant in an epoch, of each kind, whatever the address. */
  ghost function AllGranted(cfg: Config, chain: Chain, e: nat, last: nat): Reward
    requires cfg.epochCtx.Divisors()
  {
    var amount := Granted(chain);
    Reward(SumSet(Grants(cfg, chain, e, BlockReward, last), amount),
           SumSet(Grants(cfg, chain, e, EpochReward, last), amount),
           SumSet(Grants(cfg, chain, e, FoundationBonus, last), amount))
  }

  /** The sums of the three columns over some rows. */
  ghost function ColumnsOf(rows: seq<RewardRow>, s: set<nat>): Reward {
    Reward(SumSet(s, BlockColumn(rows)), SumSet(s, EpochColumn(rows)), SumSet(s, BonusColumn(rows)))
  }

  /** By epoch and address each of the three columns adds up to the amounts of all logs of its kind, and so does what an
      epoch is closed with. */
  lemma AddressGranted(cfg: Config, chain: Chain, t: RewardsTables, open: nat, last: nat, e: nat, addr: Str)
    requires Sound(cfg) && e > 0 && Accounted(cfg, chain, t, open, last)
    ensures ColumnsOf(t.history, RowsOfAddress(t.history, e, addr)) == GrantedReward(cfg, chain, e, addr, last)
    ensures forall voting, blocks ::
              Closing(cfg, e, voting, t.history, blocks).TotalOf(addr) == GrantedReward(cfg, chain, e, addr, last)
  {
    hide SumSet, GrantsTo, Conserved, PlaceOf, AddressesOf, RowsOfAddress, BlockColumn, EpochColumn, BonusColumn,
         EpochCtx.GetEpochHeight;
    KindGrantedTo(cfg, chain, t, open, last, e, BlockReward, addr);
    KindGrantedTo(cfg, chain, t, open, last, e, EpochReward, addr);
    KindGrantedTo(cfg, chain, t, open, last, e, FoundationBonus, addr);
    ColumnOfAddress(t.history, e, BlockReward, addr);
    ColumnOfAddress(t.history, e, EpochReward, addr);
    ColumnOfAddress(t.history, e, FoundationBonus, addr);
  }

  lemma KindGrantedTo(cfg: Config, chain: Chain, t: RewardsTables, open: nat, last: nat, e: nat, kind: RewardKind,
                      addr: Str)
    requires Sound(cfg) && e > 0 && Accounted(cfg, chain, t, open, last)
    ensures HistoryTotal(t.history, e, kind, addr)
            == SumSet(GrantsTo(cfg, chain, e, kind, addr, last), Granted(chain))
  {
    ChainAddsUp(cfg, chain, e, kind, addr, last);
    hide SumSet, GrantsTo, Conserved, PlaceOf, AddressesOf, EpochCtx.GetEpochHeight;
    assert HistoryTotal(t.history, e, kind, addr) == ChainTotalTo(cfg, chain, e, kind, addr, last);
  }

  /** By epoch each of the three columns adds up to the amounts of all logs of its kind, whatever their addresses. */
  lemma EpochGranted(cfg: Config, chain: Chain, t: RewardsTables, open: nat, last: nat, e: nat)
    requires Sound(cfg) && e > 0 && Accounted(cfg, chain, t, open, last)
    ensures forall kind :: EpochSum(t.history, RewardSums(kind), e)
                           == SumSet(Grants(cfg, chain, e, kind, last), Granted(chain))
    ensures ColumnsOf(t.history, RowsOfEpoch(t.history, e)) == AllGranted(cfg, chain, e, last)
  {
    hide SumSet, Grants, PlaceOf, RowsOfEpoch, BlockColumn, EpochColumn, BonusColumn, EpochCtx.GetEpochHeight, EpochSum,
         Accounted;
    forall kind
      ensures EpochSum(t.history, RewardSums(kind), e) == SumSet(Grants(cfg, chain, e, kind, last), Granted(chain))
    {
      KindGranted(cfg, chain, t, open, last, e, kind);
    }
    ColumnOfEpoch(t.history, e, BlockReward);
    ColumnOfEpoch(t.history, e, EpochReward);
    ColumnOfEpoch(t.history, e, FoundationBonus);
  }

  lemma KindGranted(cfg: Config, chain: Chain, t: RewardsTables, open: nat, last: nat, e: nat, kind: RewardKind)
    requires Sound(cfg) && e > 0 && Accounted(cfg, chain, t, open, last)
    ensures EpochSum(t.history, RewardSums(kind), e) == SumSet(Grants(cfg, chain, e, kind, last), Granted(chain))
  {
    var keys, all := AddressesOf(t.history, e), Grants(cfg, chain, e, kind, last);
    var g := GroupTotal(t.history, RewardSums(kind), e, |t.history|);
    GroupsAddUp(t.history, RewardSums(kind), e, keys, |t.history|);
    forall p | p in all ensures Receiver(chain)(p) in keys {
      GrantedOnChain(cfg, chain, e, p, last);
    }
    forall a | a in keys ensures g(a) == SumSet(WithKey(all, Receiver(chain), a), Granted(chain)) {
      KindGrantedTo(cfg, chain, t, open, last, e, kind, a);
      assert WithKey(all, Receiver(chain), a) == GrantsTo(cfg, chain, e, kind, a, last);
    }
    hide SumSet;
    SumByKey(all, Receiver(chain), keys, Granted(chain), g);
  }

  /* ---------- the addresses of reward_history ---------- */

  /** A log of the epoch that grants something to an address. */
  ghost predicate Pays(cfg: Config, chain: Chain, e: nat, addr: Str, last: nat, p: LogPosition)
    requires cfg.epochCtx.Divisors()
  {
    Within(cfg, e, last, p.0) && GrantAt(chain, p) && LogAt(chain, p).addr == addr
  }

  lemma {:induction false} GrantInBlock(blk: Block, addr: Str, n: nat) returns (i: nat, j: nat)
    requires n <= |blk.receipts| && addr in GrantedTo(blk, n)
    ensures i < |blk.receipts| && blk.receipts[i].actionHash in blk.grantRewards && j < |blk.receipts[i].logs|
    ensures blk.receipts[i].logs[j].Granted? && blk.receipts[i].logs[j].addr == addr
  {
    if addr in GrantedTo(blk, n - 1) {
      i, j := GrantInBlock(blk, addr, n - 1);
    } else {
      i := n - 1;
      j :| j < |blk.receipts[i].logs| && blk.receipts[i].logs[j].Granted? && blk.receipts[i].logs[j].addr == addr;
    }
  }

  lemma {:induction false} GrantOnChain(cfg: Config, chain: Chain, e: nat, addr: Str, n: nat) returns (p: LogPosition)
    requires Sound(cfg) && e > 0 && addr in ChainGrantedTo(cfg, chain, e, n)
    ensures Pays(cfg, chain, e, addr, n, p)
  {
    hide EpochCtx.GetEpochHeight, PlaceOf;
    if addr in ChainGrantedTo(cfg, chain, e, n - 1) {
      p := GrantOnChain(cfg, chain, e, addr, n - 1);
    } else {
      LastWithin(cfg, e, n);
      var i, j := GrantInBlock(chain.block(n), addr, |chain.block(n).receipts|);
      p := (n, i, j);
    }
  }

  /** An address has a row of the epoch exactly when some log of the epoch grants it something. */
  lemma AddressHasRow(cfg: Config, chain: Chain, t: RewardsTables, open: nat, last: nat, e: nat, addr: Str)
    requires Sound(cfg) && e > 0 && Accounted(cfg, chain, t, open, last)
    ensures RowsOfAddress(t.history, e, addr) != {} <==> exists p :: Pays(cfg, chain, e, addr, last, p)
  {
    HasAddress(t.history, e, addr);
    hide Conserved, PlaceOf, AddressesOf, RowsOfAddress;
    if p :| Pays(cfg, chain, e, addr, last, p) { GrantedOnChain(cfg, chain, e, p, last); }
    if addr in ChainGrantedTo(cfg, chain, e, last) { var p := GrantOnChain(cfg, chain, e, addr, last); }
  }

  lemma HasAddress(rows: seq<RewardRow>, e: nat, addr: Str)
    ensures RowsOfAddress(rows, e, addr) != {} <==> addr in AddressesOf(rows, e)
  {
    if addr in AddressesOf(rows, e) {
      var i: nat :| i < |rows| && rows[i].epoch == e && rows[i].rewardAddress == addr;
      assert i in RowsOfAddress(rows, e, addr);
    }
  }
}
