/** Conservation of rewards over whole epochs and runs: what account_reward credits against what the chain's
    reward logs granted (indexprotocol/rewards/protocol.go). */
module RewardConservation {
  import opened Bytes
  import opened Schema
  import opened Sql
  import opened EpochContext
  import opened RewardSplit
  import opened Rewards

  /** The rows of account_reward for an epoch. */
  function AccountOf(account: map<(nat, Str), Reward>, e: nat): map<Str, Reward> {
    map x | x in NamesAt(account, e) :: account[(e, x)]
  }

  /** Of every kind, account_reward credits for the epoch at most what reward_history holds for it. */
  ghost predicate Conserved(t: RewardsTables, e: nat) {
    forall kind :: 0 <= SumOfKind(AccountOf(t.account, e), kind) <= EpochSum(t.history, RewardSums(kind), e)
  }

  /** The credits of an epoch are what its addresses paid, which is at most what was granted in the epoch. */
  lemma CreditsConserve(c: Closing, rankings: Rankings, m: map<Str, Reward>, kind: RewardKind)
    requires c.UniqueNames() && NoDebts(c) && c.epoch > 0 && c.Addresses() != {} && CreditsAll(c, rankings, m)
    ensures SumOfKind(m, kind) == SumSet(c.Addresses(), PaidBy(c, rankings, kind))
    ensures 0 <= SumOfKind(m, kind) <= EpochSum(c.history, RewardSums(kind), c.epoch)
  {
    var s := c.Addresses();
    CreditsAddUp(m, c, rankings, s, kind);
    forall a | a in s ensures 0 <= PaidBy(c, rankings, kind)(a) <= TotalBy(c, kind)(a) {
      AddressConserves(c, a, rankings[a], kind);
    }
    hide Credits, RanksAll, NoDebts;
    SumSetAtMost(s, PaidBy(c, rankings, kind), TotalBy(c, kind));
    SumSetNotNegative(s, PaidBy(c, rankings, kind));
    TotalsAddUp(c, kind);
  }

  lemma SumSetNotNegative(s: set<Str>, f: Str -> int)
    requires forall x :: x in s ==> f(x) >= 0
    ensures SumSet(s, f) >= 0
  {
    SumSetZero(s, (x: Str) => 0);
    SumSetAtMost(s, (x: Str) => 0, f);
  }

  lemma TotalsAddUp(c: Closing, kind: RewardKind)
    ensures SumSet(c.Addresses(), TotalBy(c, kind)) == EpochSum(c.history, RewardSums(kind), c.epoch)
  {
    var n := |c.history|;
    SameGroups(c.history, c.epoch);
    GroupsAddUp(c.history, RewardSums(kind), c.epoch, c.Addresses(), n);
    forall a | a in c.Addresses()
      ensures TotalBy(c, kind)(a) == GroupTotal(c.history, RewardSums(kind), c.epoch, n)(a)
    {
      TotalOfKind(c, kind, a);
    }
    SumSetEqual(c.Addresses(), TotalBy(c, kind), GroupTotal(c.history, RewardSums(kind), c.epoch, n));
  }

  /* ---------- over a run ---------- */

  /** Sum of one kind of reward that the chain's logs granted to an address in an epoch, heights 1 to n. */
  function ChainTotalTo(cfg: Config, chain: Chain, e: nat, kind: RewardKind, addr: Str, n: nat): int
    requires cfg.epochCtx.Divisors() && cfg.epochCtx.dardanellesHeight > 0
  {
    if n == 0 then 0
    else ChainTotalTo(cfg, chain, e, kind, addr, n - 1)
         + if PlaceOf(cfg.epochCtx, n).epoch == e then BlockTotal(chain.block(n), kind, addr) else 0
  }

  /** The addresses that the chain's logs granted rewards to in an epoch, heights 1 to n. */
  function ChainGrantedTo(cfg: Config, chain: Chain, e: nat, n: nat): set<Str>
    requires cfg.epochCtx.Divisors() && cfg.epochCtx.dardanellesHeight > 0
  {
    if n == 0 then {}
    else ChainGrantedTo(cfg, chain, e, n - 1) + if PlaceOf(cfg.epochCtx, n).epoch == e then GrantedIn(chain.block(n))
      else {}
  }

  /** Amounts in reward logs are not negative. */
  ghost predicate GrantsNotNegative(blk: Block) {
    forall i, j :: 0 <= i < |blk.receipts| && 0 <= j < |blk.receipts[i].logs| && blk.receipts[i].logs[j].Granted?
                   ==> blk.receipts[i].logs[j].amount >= 0
  }

  lemma {:induction false} LogsNotNegative(logs: seq<RewardLog>, kind: RewardKind, addr: Str, n: nat)
    requires n <= |logs| && forall j :: 0 <= j < |logs| && logs[j].Granted? ==> logs[j].amount >= 0
    ensures LogsTotalTo(logs, kind, addr, n) >= 0
  {
    if n > 0 { LogsNotNegative(logs, kind, addr, n - 1); }
  }

  lemma {:induction false} ReceiptsNotNegative(blk: Block, kind: RewardKind, addr: Str, n: nat)
    requires GrantsNotNegative(blk) && n <= |blk.receipts|
    ensures ReceiptsTotalTo(blk, kind, addr, n) >= 0
  {
    if n > 0 {
      ReceiptsNotNegative(blk, kind, addr, n - 1);
      LogsNotNegative(blk.receipts[n - 1].logs, kind, addr, |blk.receipts[n - 1].logs|);
    }
  }

  lemma {:induction false} ChainNotNegative(cfg: Config, chain: Chain, e: nat, kind: RewardKind, addr: Str, n: nat)
    requires cfg.epochCtx.Divisors() && cfg.epochCtx.dardanellesHeight > 0
    requires forall h :: GrantsNotNegative(chain.block(h))
    ensures ChainTotalTo(cfg, chain, e, kind, addr, n) >= 0
  {
    if n > 0 {
      ChainNotNegative(cfg, chain, e, kind, addr, n - 1);
      assert GrantsNotNegative(chain.block(n));
      ReceiptsNotNegative(chain.block(n), kind, addr, |chain.block(n).receipts|);
    }
  }

  /** The row is written for a receipt of a block of its epoch, at height last or below. */
  ghost predicate Recorded(cfg: Config, chain: Chain, row: RewardRow, last: nat)
    requires cfg.epochCtx.Divisors() && cfg.epochCtx.dardanellesHeight > 0
  {
    exists h :: 1 <= h <= last && RecordedAt(cfg, chain, row, h)
  }

  ghost predicate RecordedAt(cfg: Config, chain: Chain, row: RewardRow, h: nat)
    requires cfg.epochCtx.Divisors() && cfg.epochCtx.dardanellesHeight > 0 && h > 0
  {
    PlaceOf(cfg.epochCtx, h).epoch == row.epoch && WrittenWithin(row, chain.block(h), |chain.block(h).receipts|)
  }

  /** What holds of the reward tables after heights 1 to last, epoch `open` being the one in progress. */
  ghost predicate Accounted(cfg: Config, chain: Chain, t: RewardsTables, open: nat, last: nat)
    requires cfg.epochCtx.Divisors() && cfg.epochCtx.dardanellesHeight > 0
  {
    && (forall i :: 0 <= i < |t.history| ==> t.history[i].epoch <= open && Recorded(cfg, chain, t.history[i], last))
    && (forall p :: p in t.account ==> 1 <= p.0 < open)
    && (forall e, kind, addr :: HistoryTotal(t.history, e, kind, addr) == ChainTotalTo(cfg, chain, e, kind, addr, last))
    && (forall e :: AddressesOf(t.history, e) == ChainGrantedTo(cfg, chain, e, last))
    && (forall e :: 1 <= e < open ==> Conserved(t, e))
  }

  lemma AppendKeepsTotals(cfg: Config, chain: Chain, t: RewardsTables, rows: seq<RewardRow>, last: nat)
    requires cfg.epochCtx.Divisors() && cfg.epochCtx.dardanellesHeight > 0
    requires forall e, kind, addr ::
               HistoryTotal(t.history, e, kind, addr) == ChainTotalTo(cfg, chain, e, kind, addr, last)
    requires var blk := chain.block(last + 1);
             GrantedRows(rows, PlaceOf(cfg.epochCtx, last + 1).epoch, blk, |blk.receipts|)
    ensures forall e, kind, addr ::
              HistoryTotal(t.history + rows, e, kind, addr) == ChainTotalTo(cfg, chain, e, kind, addr, last + 1)
  {
    hide PlaceOf, AddressesOf, WrittenWithin, ReceiptsTotalTo;
    var open := PlaceOf(cfg.epochCtx, last + 1).epoch;
    forall e, kind: RewardKind, addr
      ensures HistoryTotal(t.history + rows, e, kind, addr) == ChainTotalTo(cfg, chain, e, kind, addr, last + 1)
    {
      assert HistoryTotal(t.history, e, kind, addr) == ChainTotalTo(cfg, chain, e, kind, addr, last);
      TotalConcat(t.history, rows, RewardSums(kind), e, addr, |rows|);
      if e == open {
        assert HistoryTotal(rows, e, kind, addr) == BlockTotal(chain.block(last + 1), kind, addr);
      } else {
        NoTotalElsewhere(rows, open, e, kind, addr, |rows|);
      }
    }
  }

  lemma AppendKeepsAddresses(cfg: Config, chain: Chain, t: RewardsTables, rows: seq<RewardRow>, last: nat)
    requires cfg.epochCtx.Divisors() && cfg.epochCtx.dardanellesHeight > 0
    requires forall e :: AddressesOf(t.history, e) == ChainGrantedTo(cfg, chain, e, last)
    requires var blk := chain.block(last + 1);
             GrantedRows(rows, PlaceOf(cfg.epochCtx, last + 1).epoch, blk, |blk.receipts|)
    ensures forall e :: AddressesOf(t.history + rows, e) == ChainGrantedTo(cfg, chain, e, last + 1)
  {
    hide PlaceOf, HistoryTotal, WrittenWithin;
    var open := PlaceOf(cfg.epochCtx, last + 1).epoch;
    forall e ensures AddressesOf(t.history + rows, e) == ChainGrantedTo(cfg, chain, e, last + 1) {
      KeysConcat(t.history, rows, RewardSums(BlockReward), e);
      if e != open { assert AddressesOf(rows, e) == {}; }
    }
  }

  lemma AppendKeepsRecorded(cfg: Config, chain: Chain, history: seq<RewardRow>, rows: seq<RewardRow>, last: nat)
    requires cfg.epochCtx.Divisors() && cfg.epochCtx.dardanellesHeight > 0
    requires forall i :: 0 <= i < |history| ==> Recorded(cfg, chain, history[i], last)
    requires var blk := chain.block(last + 1);
             GrantedRows(rows, PlaceOf(cfg.epochCtx, last + 1).epoch, blk, |blk.receipts|)
    ensures var all := history + rows; forall i :: 0 <= i < |all| ==> Recorded(cfg, chain, all[i], last + 1)
  {
    hide PlaceOf, HistoryTotal, WrittenWithin, AddressesOf;
    var all := history + rows;
    forall i | 0 <= i < |all| ensures Recorded(cfg, chain, all[i], last + 1) {
      if i < |history| {
        var row := history[i];
        assert all[i] == row && Recorded(cfg, chain, row, last);
        var h :| 1 <= h <= last && RecordedAt(cfg, chain, row, h);
        assert RecordedAt(cfg, chain, all[i], h);
      } else {
        assert all[i] == rows[i - |history|];
        assert RecordedAt(cfg, chain, all[i], last + 1);
      }
    }
  }

  lemma {:induction false} NoTotalElsewhere(rows: seq<RewardRow>, open: nat, e: nat, kind: RewardKind, addr: Str,
                                            n: nat)
    requires n <= |rows| && e != open && forall i :: 0 <= i < |rows| ==> rows[i].epoch == open
    ensures TotalTo(rows, RewardSums(kind), e, addr, n) == 0
  {
    if n > 0 { NoTotalElsewhere(rows, open, e, kind, addr, n - 1); }
  }

  lemma {:induction false} EpochSumElsewhere(history: seq<RewardRow>, rows: seq<RewardRow>, open: nat, e: nat,
                                             kind: RewardKind, n: nat)
    requires n <= |history| + |rows| && e != open && forall i :: 0 <= i < |rows| ==> rows[i].epoch == open
    ensures EpochSumTo(history + rows, RewardSums(kind), e, n)
            == EpochSumTo(history, RewardSums(kind), e, if n <= |history| then n else |history|)
  {
    if n > 0 { EpochSumElsewhere(history, rows, open, e, kind, n - 1); }
  }

  lemma EmptyConserved(t: RewardsTables, e: nat)
    requires (forall p :: p in t.account ==> p.0 != e)
    requires forall kind, addr :: HistoryTotal(t.history, e, kind, addr) >= 0
    ensures Conserved(t, e)
  {
    assert AccountOf(t.account, e) == map[];
    forall kind ensures SumOfKind(AccountOf(t.account, e), kind) == 0 <= EpochSum(t.history, RewardSums(kind), e) {
      var s, f := Keys(t.history, RewardSums(kind), e), GroupTotal(t.history, RewardSums(kind), e, |t.history|);
      GroupsAddUp(t.history, RewardSums(kind), e, s, |t.history|);
      forall a | a in s ensures f(a) >= 0 { assert HistoryTotal(t.history, e, kind, a) >= 0; }
      SumSetNotNegative(s, f);
    }
  }

  lemma EarlierAccounts(c: Closing, t: RewardsTables, m: map<Str, Reward>, e: nat)
    requires e < c.epoch && Conserved(t, e)
    ensures Conserved(AfterClosing(c, t, m), e)
  {
    hide Closing.Addresses, SumOfKind;
    assert AccountOf(AfterClosing(c, t, m).account, e) == AccountOf(t.account, e);
    ClosingKeepsHistory(c, t, m);
  }

  lemma CreditedAccounts(c: Closing, t: RewardsTables, rankings: Rankings, m: map<Str, Reward>)
    requires c.history == t.history && c.UniqueNames() && NoDebts(c) && CreditsAll(c, rankings, m)
    requires c.epoch > 0 && c.Addresses() != {} && forall p :: p in t.account ==> p.0 != c.epoch
    ensures Conserved(AfterClosing(c, t, m), c.epoch)
  {
    hide CreditsAll, NoDebts, Closing.Addresses, Closing.UniqueNames, SumOfKind;
    assert AccountOf(AfterClosing(c, t, m).account, c.epoch) == m;
    ClosingKeepsHistory(c, t, m);
    forall kind ensures 0 <= SumOfKind(m, kind) <= EpochSum(t.history, RewardSums(kind), c.epoch) {
      CreditsConserve(c, rankings, m, kind);
    }
  }

  /** Closing the epoch in progress credits at most what its reward rows hold, and leaves all others alone. */
  lemma CloseKeepsConserved(c: Closing, t: RewardsTables, rankings: Rankings, m: map<Str, Reward>, e: nat)
    requires c.history == t.history && c.UniqueNames() && NoDebts(c) && CreditsAll(c, rankings, m)
    requires (forall p :: p in t.account ==> 1 <= p.0 < c.epoch) && 1 <= e <= c.epoch
    requires e < c.epoch ==> Conserved(t, e)
    ensures Conserved(AfterClosing(c, t, m), e)
  {
    hide CreditsAll, Conserved, Closing.Addresses, Closing.UniqueNames, HistoryTotal;
    if e < c.epoch {
      EarlierAccounts(c, t, m, e);
    } else if c.Addresses() == {} {
      EmptyConserved(t, e);
    } else {
      CreditedAccounts(c, t, rankings, m);
    }
  }

  /** Rows of the open epoch leave the closed ones conserved. */
  lemma AppendKeepsConserved(t: RewardsTables, rows: seq<RewardRow>, open: nat, e: nat)
    requires Conserved(t, e) && e != open && forall i :: 0 <= i < |rows| ==> rows[i].epoch == open
    ensures Conserved(t.(history := t.history + rows), e)
  {
    hide AccountOf, SumOfKind;
    forall kind
      ensures 0 <= SumOfKind(AccountOf(t.account, e), kind) <= EpochSum(t.history + rows, RewardSums(kind), e)
    {
      EpochSumElsewhere(t.history, rows, open, e, kind, |t.history| + |rows|);
    }
  }

  /** No row of reward_history or account_reward is ever changed or removed. */
  ghost predicate OnlyGrows(t: RewardsTables, t': RewardsTables) {
    && t.history <= t'.history
    && (forall p :: p in t.account ==> p in t'.account && t'.account[p] == t.account[p])
  }

  lemma ClosedConserved(cfg: Config, c: Closing, p: Place, t: RewardsTables, s: Settlement, open: nat)
    requires p.epoch > 0 && p.epoch == open + (if p.starts then 1 else 0)
    requires c.cfg == cfg && c.epoch == p.epoch - 1 && c.history == t.history && c.UniqueNames()
    requires forall e, kind, addr :: HistoryTotal(t.history, e, kind, addr) >= 0
    requires forall i :: 0 <= i < |c.voting| ==> c.voting[i].totalWeightedVotes >= 0
    requires cfg.rolldpos && p.starts ==> CreditsAll(c, s.rankings, s.credits)
    requires (forall q :: q in t.account ==> 1 <= q.0 < open) && (forall e :: 1 <= e < open ==> Conserved(t, e))
    ensures var closed := Closed(c, p, t, s.credits);
            && closed.history == t.history && OnlyGrows(t, closed)
            && (forall q :: q in closed.account ==> 1 <= q.0 < p.epoch)
            && (forall e :: 1 <= e < p.epoch ==> Conserved(closed, e))
  {
    hide Conserved, CreditsAll;
    if cfg.rolldpos && p.starts {
      assert NoDebts(c);
      forall e | 1 <= e < p.epoch ensures Conserved(AfterClosing(c, t, s.credits), e) {
        CloseKeepsConserved(c, t, s.rankings, s.credits, e);
      }
    } else if p.starts && open > 0 {
      EmptyConserved(t, open);
    }
  }

  /** Handling the next block keeps the books: reward_history adds up to the chain's reward logs by epoch,
      kind and address; every closed epoch's credits stay within what was granted in it; nothing written
      before changes. */
  lemma HandlingKeepsAccounts(cfg: Config, chain: Chain, last: nat, p: Place, c: Closing, t: RewardsTables,
                              s: Settlement, t': RewardsTables, open: nat)
    requires cfg.epochCtx.Divisors() && cfg.epochCtx.dardanellesHeight > 0
    requires p == PlaceOf(cfg.epochCtx, last + 1) && p.epoch == open + (if p.starts then 1 else 0)
    requires c.cfg == cfg && c.epoch == p.epoch - 1 && c.history == t.history && c.UniqueNames()
    requires forall i :: 0 <= i < |c.voting| ==> c.voting[i].totalWeightedVotes >= 0
    requires forall h :: GrantsNotNegative(chain.block(h))
    requires Accounted(cfg, chain, t, open, last) && Handled(p, chain.block(last + 1), c, t, s, t')
    ensures Accounted(cfg, chain, t', p.epoch, last + 1) && OnlyGrows(t, t')
  {
    hide PlaceOf, CreditsAll, AfterClosing, Conserved, Recorded, WrittenWithin;
    forall e, kind: RewardKind, addr ensures HistoryTotal(t.history, e, kind, addr) >= 0 {
      ChainNotNegative(cfg, chain, e, kind, addr, last);
      assert HistoryTotal(t.history, e, kind, addr) == ChainTotalTo(cfg, chain, e, kind, addr, last);
    }
    ClosedConserved(cfg, c, p, t, s, open);
    AppendKeepsTotals(cfg, chain, t, s.rows, last);
    AppendKeepsAddresses(cfg, chain, t, s.rows, last);
    AppendKeepsRecorded(cfg, chain, t.history, s.rows, last);
    var closed := Closed(c, p, t, s.credits);
    assert t' == closed.(history := closed.history + s.rows);
    forall e | 1 <= e < p.epoch ensures Conserved(t', e) {
      AppendKeepsConserved(closed, s.rows, p.epoch, e);
    }
  }
}
