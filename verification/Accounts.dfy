/** Balance history and the account flow tables (indexprotocol/accounts/protocol.go). */
module Accounts {
  import opened Bytes
  import opened Schema
  import opened Sql
  import opened EpochContext
  import opened Store

  /** SELECT `to`, SUM(amount) .. GROUP BY `to`. */
  const INFLOW: Query<BalanceRow> :=
    Query((r: BalanceRow) => r.epoch, (r: BalanceRow) => r.to, (r: BalanceRow) => r.amount)

  /** SELECT `from`, SUM(amount) .. GROUP BY `from`. */
  const OUTFLOW: Query<BalanceRow> :=
    Query((r: BalanceRow) => r.epoch, (r: BalanceRow) => r.from, (r: BalanceRow) => r.amount)

  /* ---------- the income join ---------- */

  /** One income for every address with an inflow or an outflow in epoch e. */
  function IncomeOf(inflow: map<(nat, Str), int>, outflow: map<(nat, Str), int>, e: nat): map<Str, int> {
    map a | a in NamesAt(inflow, e) + NamesAt(outflow, e) :: OrZero(inflow, (e, a)) - OrZero(outflow, (e, a))
  }

  function RowsOf(m: map<Str, int>): (rows: set<(Str, int)>)
    ensures forall row :: row in rows <==> row.0 in m && row.1 == m[row.0]
  {
    set a | a in m.Keys :: (a, m[a])
  }

  /** inflow LEFT JOIN outflow UNION inflow RIGHT JOIN outflow: a full outer join in two passes. The result
      is a set of rows; it has exactly one row for each address. */
  method JoinIncome(inflow: map<(nat, Str), int>, outflow: map<(nat, Str), int>, e: nat) returns (rows: set<(Str, int)>)
    ensures rows == RowsOf(IncomeOf(inflow, outflow, e))
  {
    rows := {};
    var left := inflow.Keys;
    while left != {}
      invariant left <= inflow.Keys
      invariant forall row :: row in rows <==>
        (e, row.0) in inflow && (e, row.0) !in left && row.1 == inflow[(e, row.0)] - OrZero(outflow, (e, row.0))
      decreases left
    {
      var p :| p in left;
      left := left - {p};
      if p.0 == e { rows := rows + {(p.1, inflow[p] - OrZero(outflow, p))}; }
    }
    var right := outflow.Keys;
    while right != {}
      invariant right <= outflow.Keys
      invariant forall row :: row in rows <==>
        ((e, row.0) in inflow || ((e, row.0) in outflow && (e, row.0) !in right))
        && row.1 == OrZero(inflow, (e, row.0)) - OrZero(outflow, (e, row.0))
      decreases right
    {
      var p :| p in right;
      right := right - {p};
      if p.0 == e { rows := rows + {(p.1, OrZero(inflow, p) - outflow[p])}; }
    }
  }

  /** INSERT IGNORE of the joined rows, in whatever order the database returns them. */
  method InsertIncome(t: map<(nat, Str), int>, e: nat, rows: set<(Str, int)>, ghost m: map<Str, int>)
    returns (t': map<(nat, Str), int>)
    requires rows == RowsOf(m)
    ensures t' == InsertIgnore(t, e, m)
  {
    t' := t;
    var rest := rows;
    while rest != {}
      invariant rest <= rows
      invariant forall p :: p in t' <==> p in t || (p.0 == e && p.1 in m && (p.1, m[p.1]) !in rest)
      invariant forall p :: p in t' ==> t'[p] == if p in t then t[p] else m[p.1]
      decreases rest
    {
      var row :| row in rest;
      rest := rest - {row};
      if (e, row.0) !in t' { t' := t'[(e, row.0) := row.1]; }
    }
  }

  /* ---------- rebuilding at the end of an epoch ---------- */

  /** The tables after rebuildAccountIncomeTable(epoch). */
  function Rebuilt(t: AccountsTables, e: nat): AccountsTables {
    if e == 0 then t
    else
      var inflow := InsertIgnore(t.inflow, e, Groups(t.balance, INFLOW, e));
      var outflow := InsertIgnore(t.outflow, e, Groups(t.balance, OUTFLOW, e));
      t.(inflow := inflow, outflow := outflow, income := InsertIgnore(t.income, e, IncomeOf(inflow, outflow, e)))
  }

  /** The balance rows of one action's transactions, in order. */
  function TransferRows(epoch: nat, height: nat, hash: Str, txs: seq<Transfer>): (rows: seq<BalanceRow>)
    ensures |rows| == |txs|
  {
    seq(|txs|, i requires 0 <= i < |txs| =>
      BalanceRow(epoch, height, hash, txs[i].actionType, txs[i].sender, txs[i].recipient, txs[i].amount))
  }

  /** The rows of the first n actions in the given order. */
  function ActionRows(order: seq<Str>, epoch: nat, height: nat, log: map<Str, seq<Transfer>>,
                      n: nat): (rows: seq<BalanceRow>)
    requires n <= |order| && forall i :: 0 <= i < n ==> order[i] in log
    ensures forall i :: 0 <= i < |rows| ==> rows[i].epoch == epoch && rows[i].height == height
  {
    if n == 0 then []
    else ActionRows(order, epoch, height, log, n - 1) + TransferRows(epoch, height, order[n - 1], log[order[n - 1]])
  }

  lemma {:induction false} ActionRowsPrefix(order: seq<Str>, h: Str, epoch: nat, height: nat,
                                            log: map<Str, seq<Transfer>>, n: nat)
    requires n <= |order| && forall i :: 0 <= i < n ==> order[i] in log
    ensures ActionRows(order + [h], epoch, height, log, n) == ActionRows(order, epoch, height, log, n)
  {
    if n > 0 { ActionRowsPrefix(order, h, epoch, height, log, n - 1); }
  }

  /** The transactions by action hash; a later log of the same action replaces an earlier one. */
  function LogMapTo(logs: seq<(Str, seq<Transfer>)>, n: nat): map<Str, seq<Transfer>>
    requires n <= |logs|
  {
    if n == 0 then map[] else LogMapTo(logs, n - 1)[logs[n - 1].0 := logs[n - 1].1]
  }

  /** The log at position i of n is the last one of its action. */
  predicate LastOfAction(logs: seq<(Str, seq<Transfer>)>, i: nat, n: nat)
    requires i < n <= |logs|
  {
    forall j :: i < j < n ==> logs[j].0 != logs[i].0
  }

  /** The map holds exactly the logged actions. */
  lemma {:induction false} LogMapKeys(logs: seq<(Str, seq<Transfer>)>, n: nat, h: Str)
    requires n <= |logs|
    ensures h in LogMapTo(logs, n) <==> exists i :: 0 <= i < n && logs[i].0 == h
  {
    if n > 0 { LogMapKeys(logs, n - 1, h); }
  }

  /** Each of them maps to the transactions of its last log. */
  lemma {:induction false} LogMapHoldsLast(logs: seq<(Str, seq<Transfer>)>, i: nat, n: nat)
    requires i < n <= |logs| && LastOfAction(logs, i, n)
    ensures logs[i].0 in LogMapTo(logs, n) && LogMapTo(logs, n)[logs[i].0] == logs[i].1
    decreases n
  {
    if i < n - 1 { LogMapHoldsLast(logs, i, n - 1); }
  }

  /** What getTransactionLog returns: an empty map when the call fails, without an error. */
  function FetchedLog(chain: Chain, h: nat, out: Outage): map<Str, seq<Transfer>> {
    if TransactionLogCall in out then map[] else LogMapTo(chain.transactionLog(h), |chain.transactionLog(h)|)
  }

  /** An order in which a range over the map can visit its keys. */
  ghost predicate VisitsAll(order: seq<Str>, keys: set<Str>) {
    && (forall i :: 0 <= i < |order| ==> order[i] in keys)
    && (forall k :: k in keys ==> k in order)
    && (forall i, j :: 0 <= i < j < |order| ==> order[i] != order[j])
  }

  /** The rows appended for a block: every action's transactions in their order, actions in any order. */
  ghost predicate Appended(rows: seq<BalanceRow>, epoch: nat, height: nat, log: map<Str, seq<Transfer>>) {
    exists order: seq<Str> :: VisitsAll(order, log.Keys) && rows == ActionRows(order, epoch, height, log, |order|)
  }

  /** What handling a block of epoch e does to the account tables: if the block starts the epoch, the epoch
      before it is closed; then the block's own rows are appended. */
  ghost predicate HandledIn(e: nat, starts: bool, h: nat, log: map<Str, seq<Transfer>>,
                            t: AccountsTables, rows: seq<BalanceRow>, t': AccountsTables)
    requires starts ==> e > 0
  {
    Appended(rows, e, h, log) && t' == WithRows(Closed(t, e, starts), rows)
  }

  /** The tables once the epoch before e is closed, if the block starts epoch e. */
  function Closed(t: AccountsTables, e: nat, starts: bool): AccountsTables
    requires starts ==> e > 0
  {
    if starts then Rebuilt(t, e - 1) else t
  }

  function WithRows(t: AccountsTables, rows: seq<BalanceRow>): AccountsTables {
    t.(balance := t.balance + rows)
  }

  ghost predicate Handled(ctx: EpochCtx, chain: Chain, h: nat, out: Outage,
                          t: AccountsTables, rows: seq<BalanceRow>, t': AccountsTables)
    requires ctx.Divisors() && ctx.dardanellesHeight > 0 && h > 0
  {
    var place := PlaceOf(ctx, h);
    HandledIn(place.epoch, place.starts, h, FetchedLog(chain, h, out), t, rows, t')
  }

  /* ---------- the genesis rows ---------- */

  /** The action hash of genesis rows: 32 zero bytes in hexadecimal. */
  const GENESIS_HASH: Str := ZEROS + ZEROS + ZEROS + ZEROS

  const ZEROS: Str := [0x30, 0x30, 0x30, 0x30, 0x30, 0x30, 0x30, 0x30, 0x30, 0x30, 0x30, 0x30, 0x30, 0x30, 0x30, 0x30]

  const GENESIS_TYPE: Str := [0x67, 0x65, 0x6e, 0x65, 0x73, 0x69, 0x73]

  function GenesisRow(addr: Str, amount: int): BalanceRow {
    BalanceRow(0, 0, GENESIS_HASH, GENESIS_TYPE, [], addr, amount)
  }

  /** One row for each address of the map, in any order. */
  ghost predicate GenesisRows(rows: seq<BalanceRow>, genesis: map<Str, int>, done: set<Str>)
    requires done <= genesis.Keys
  {
    && (forall i :: 0 <= i < |rows| ==> rows[i].to in done && rows[i] == GenesisRow(rows[i].to, genesis[rows[i].to]))
    && (forall a :: a in done ==> GenesisRow(a, genesis[a]) in rows)
    && (forall i, j :: 0 <= i < j < |rows| ==> rows[i].to != rows[j].to)
  }

  lemma OneMoreGenesisRow(rows: seq<BalanceRow>, genesis: map<Str, int>, done: set<Str>, a: Str)
    requires done <= genesis.Keys && a in genesis && a !in done && GenesisRows(rows, genesis, done)
    ensures GenesisRows(rows + [GenesisRow(a, genesis[a])], genesis, done + {a})
  {}

  ghost predicate HasGenesis(rows: seq<BalanceRow>) {
    exists i :: 0 <= i < |rows| && rows[i].actionHash == GENESIS_HASH
  }

  class AccountsProtocol {
    const epochCtx: EpochCtx

    constructor (epochCtx: EpochCtx)
      ensures this.epochCtx == epochCtx
    {
      this.epochCtx := epochCtx;
    }

    /** Initialize: writes the genesis rows unless the committed table holds some. */
    method Initialize(tx: Tx, committed: seq<BalanceRow>, genesis: map<Str, int>) returns (ghost rows: seq<BalanceRow>)
      modifies tx`accounts
      ensures HasGenesis(committed) ==> tx.accounts == old(tx.accounts)
      ensures !HasGenesis(committed) ==>
                GenesisRows(rows, genesis, genesis.Keys) && tx.accounts == WithRows(old(tx.accounts), rows)
    {
      rows := [];
      for i := 0 to |committed|
        invariant forall j :: 0 <= j < i ==> committed[j].actionHash != GENESIS_HASH
      {
        if committed[i].actionHash == GENESIS_HASH { return; }
      }
      var rest := genesis.Keys;
      ghost var start := tx.accounts;
      assert start.balance + [] == start.balance;
      while rest != {}
        invariant rest <= genesis.Keys && GenesisRows(rows, genesis, genesis.Keys - rest)
        invariant tx.accounts == WithRows(start, rows)
        decreases rest
      {
        hide GenesisRows, GenesisRow;
        var addr :| addr in rest;
        OneMoreGenesisRow(rows, genesis, genesis.Keys - rest, addr);
        assert genesis.Keys - (rest - {addr}) == genesis.Keys - rest + {addr};
        BalanceTwice(start, rows, [GenesisRow(addr, genesis[addr])]);
        rest, rows := rest - {addr}, rows + [GenesisRow(addr, genesis[addr])];
        UpdateBalanceHistory(tx, GenesisRow(addr, genesis[addr]));
      }
      assert genesis.Keys - rest == genesis.Keys;
    }

    /** rebuildAccountIncomeTable: three table updates in a row. */
    method RebuildAccountIncomeTable(tx: Tx, epochNumber: nat)
      modifies tx`accounts
      ensures tx.accounts == Rebuilt(old(tx.accounts), epochNumber)
    {
      if epochNumber == 0 { return; }
      var t := tx.accounts;
      var received := GroupBy(t.balance, INFLOW, epochNumber);
      t := t.(inflow := InsertIgnore(t.inflow, epochNumber, received));
      var sent := GroupBy(t.balance, OUTFLOW, epochNumber);
      t := t.(outflow := InsertIgnore(t.outflow, epochNumber, sent));
      var rows := JoinIncome(t.inflow, t.outflow, epochNumber);
      var income := InsertIncome(t.income, epochNumber, rows, IncomeOf(t.inflow, t.outflow, epochNumber));
      tx.accounts := t.(income := income);
    }

    /** getTransactionLog. */
    method GetTransactionLog(chain: Chain, height: nat, out: Outage) returns (log: map<Str, seq<Transfer>>)
      ensures log == FetchedLog(chain, height, out)
    {
      log := map[];
      if TransactionLogCall !in out {
        var logs := chain.transactionLog(height);
        for i := 0 to |logs|
          invariant log == LogMapTo(logs, i)
        {
          log := log[logs[i].0 := logs[i].1];
        }
      }
    }

    /** updateBalanceHistory. */
    method UpdateBalanceHistory(tx: Tx, row: BalanceRow)
      modifies tx`accounts
      ensures tx.accounts == WithRows(old(tx.accounts), [row])
    {
      tx.accounts := tx.accounts.(balance := tx.accounts.balance + [row]);
    }

    /** The inner loop of HandleBlock: one action's transactions. */
    method InsertTransfers(tx: Tx, epochNumber: nat, height: nat, h: Str, txs: seq<Transfer>)
      modifies tx`accounts
      ensures tx.accounts == WithRows(old(tx.accounts), TransferRows(epochNumber, height, h, txs))
    {
      ghost var rows := TransferRows(epochNumber, height, h, txs);
      ghost var start := tx.accounts;
      assert start.balance + rows[..0] == start.balance;
      for j := 0 to |txs|
        invariant tx.accounts == WithRows(start, rows[..j])
      {
        UpdateBalanceHistory(tx,
          BalanceRow(epochNumber, height, h, txs[j].actionType, txs[j].sender, txs[j].recipient, txs[j].amount));
        BalanceAppended(start, rows, j);
      }
      assert rows[..|txs|] == rows;
    }

    /** HandleBlock. It never fails: a failed transaction log call is taken for an empty log. */
    method HandleBlock(tx: Tx, chain: Chain, blk: Block, out: Outage) returns (ghost rows: seq<BalanceRow>)
      requires epochCtx.Divisors() && epochCtx.dardanellesHeight > 0 && blk.height > 0
      modifies tx`accounts
      ensures Handled(epochCtx, chain, blk.height, out, old(tx.accounts), rows, tx.accounts)
    {
      hide PlaceOf;
      var place := PlaceOf(epochCtx, blk.height);
      CloseEpoch(tx, place.epoch, place.starts);
      var log := GetTransactionLog(chain, blk.height, out);
      rows := InsertLog(tx, place.epoch, blk.height, log);
    }

    /** The special handling of an epoch's first height in HandleBlock. */
    method CloseEpoch(tx: Tx, epochNumber: nat, starts: bool)
      requires starts ==> epochNumber > 0
      modifies tx`accounts
      ensures tx.accounts == Closed(old(tx.accounts), epochNumber, starts)
    {
      hide Rebuilt;
      if starts {
        RebuildAccountIncomeTable(tx, epochNumber - 1);
      }
    }

    /** The outer loop of HandleBlock: ranges over the log in whatever order the map yields. */
    method InsertLog(tx: Tx, epochNumber: nat, height: nat, log: map<Str, seq<Transfer>>)
      returns (ghost rows: seq<BalanceRow>)
      modifies tx`accounts
      ensures Appended(rows, epochNumber, height, log) && tx.accounts == WithRows(old(tx.accounts), rows)
    {
      ghost var start, order := tx.accounts, [];
      rows := [];
      var hashes := log.Keys;
      assert start.balance + [] == start.balance;
      while hashes != {}
        invariant hashes <= log.Keys && VisitsAll(order, log.Keys - hashes)
        invariant rows == ActionRows(order, epochNumber, height, log, |order|)
        invariant tx.accounts == WithRows(start, rows)
        decreases hashes
      {
        var h :| h in hashes;
        InsertTransfers(tx, epochNumber, height, h, log[h]);
        VisitOneMore(order, log.Keys - hashes, h);
        ActionRowsPrefix(order, h, epochNumber, height, log, |order|);
        BalanceTwice(start, rows, TransferRows(epochNumber, height, h, log[h]));
        rows := rows + TransferRows(epochNumber, height, h, log[h]);
        order := order + [h];
        assert log.Keys - (hashes - {h}) == log.Keys - hashes + {h};
        hashes := hashes - {h};
      }
      assert log.Keys - hashes == log.Keys;
    }
  }

  lemma BalanceAppended(t: AccountsTables, rows: seq<BalanceRow>, j: nat)
    requires j < |rows|
    ensures t.balance + rows[..j] + [rows[j]] == t.balance + rows[..j + 1]
  {
    assert rows[..j + 1] == rows[..j] + [rows[j]];
  }

  lemma VisitOneMore(order: seq<Str>, done: set<Str>, h: Str)
    requires h !in done && VisitsAll(order, done)
    ensures VisitsAll(order + [h], done + {h})
  {
    forall k | k in done ensures k in order + [h] { assert k in order; }
  }

  lemma BalanceTwice(t: AccountsTables, a: seq<BalanceRow>, b: seq<BalanceRow>)
    ensures WithRows(WithRows(t, a), b) == WithRows(t, a + b)
  {
    assert t.balance + a + b == t.balance + (a + b);
  }

  /* ---------- the flow tables are views of balance_history ---------- */

  /** account_income holds, for every epoch from 1 to closed - 1, exactly one row for each address that sent
      or received in it: what the address received minus what it sent, over all balance rows of the epoch. */
  ghost predicate IncomeView(t: AccountsTables, closed: nat) {
    forall p: (nat, Str) ::
      && (p in t.income <==> 1 <= p.0 < closed && p.1 in Keys(t.balance, INFLOW, p.0) + Keys(t.balance, OUTFLOW, p.0))
      && (p in t.income ==> t.income[p] == NetIn(t.balance, p.0, p.1))
  }

  /** What address a received minus what it sent in epoch e. */
  function NetIn(rows: seq<BalanceRow>, e: nat, a: Str): int {
    Total(rows, INFLOW, e, a) - Total(rows, OUTFLOW, e, a)
  }

  /** Epoch `open` is the one being filled; all epochs before it are closed and materialised. */
  ghost predicate Views(t: AccountsTables, open: nat) {
    && (forall i :: 0 <= i < |t.balance| ==> t.balance[i].epoch <= open)
    && Materialised(t.inflow, t.balance, INFLOW, open)
    && Materialised(t.outflow, t.balance, OUTFLOW, open)
    && IncomeView(t, open)
  }

  lemma CloseKeepsViews(t: AccountsTables, e: nat)
    requires Views(t, e)
    ensures Views(Rebuilt(t, e), e + 1)
  {
    if e > 0 {
      MaterialisedClose(t.inflow, t.balance, INFLOW, e);
      MaterialisedClose(t.outflow, t.balance, OUTFLOW, e);
      var t' := Rebuilt(t, e);
      forall a ensures OrZero(t'.inflow, (e, a)) == Total(t.balance, INFLOW, e, a) {
        if a !in Keys(t.balance, INFLOW, e) { TotalOfNone(t.balance, INFLOW, e, a, |t.balance|); }
      }
      forall a ensures OrZero(t'.outflow, (e, a)) == Total(t.balance, OUTFLOW, e, a) {
        if a !in Keys(t.balance, OUTFLOW, e) { TotalOfNone(t.balance, OUTFLOW, e, a, |t.balance|); }
      }
      IncomeCloses(t, t', e);
    }
  }

  lemma IncomeCloses(t: AccountsTables, t': AccountsTables, e: nat)
    requires e > 0 && IncomeView(t, e) && t'.balance == t.balance
    requires t'.income == InsertIgnore(t.income, e, IncomeOf(t'.inflow, t'.outflow, e))
    requires Materialised(t'.inflow, t.balance, INFLOW, e + 1) && Materialised(t'.outflow, t.balance, OUTFLOW, e + 1)
    requires forall a :: OrZero(t'.inflow, (e, a)) == Total(t.balance, INFLOW, e, a)
    requires forall a :: OrZero(t'.outflow, (e, a)) == Total(t.balance, OUTFLOW, e, a)
    ensures IncomeView(t', e + 1)
  {
    hide InsertIgnore, IncomeView;
    var m := IncomeOf(t'.inflow, t'.outflow, e);
    forall a ensures a in m <==> a in Keys(t.balance, INFLOW, e) + Keys(t.balance, OUTFLOW, e) {
      var p := (e, a);
      assert p in t'.inflow <==> a in Keys(t.balance, INFLOW, e);
      assert p in t'.outflow <==> a in Keys(t.balance, OUTFLOW, e);
    }
    IncomeInserted(t, t', e, m);
  }

  lemma IncomeInserted(t: AccountsTables, t': AccountsTables, e: nat, m: map<Str, int>)
    requires e > 0 && IncomeView(t, e) && t'.balance == t.balance && t'.income == InsertIgnore(t.income, e, m)
    requires forall a :: a in m <==> a in Keys(t.balance, INFLOW, e) + Keys(t.balance, OUTFLOW, e)
    requires forall a :: a in m ==> m[a] == NetIn(t.balance, e, a)
    ensures IncomeView(t', e + 1)
  {}

  lemma AppendKeepsViews(t: AccountsTables, rows: seq<BalanceRow>, open: nat)
    requires Views(t, open) && forall i :: 0 <= i < |rows| ==> rows[i].epoch == open
    ensures Views(WithRows(t, rows), open)
  {
    MaterialisedAppend(t.inflow, t.balance, rows, INFLOW, open);
    MaterialisedAppend(t.outflow, t.balance, rows, OUTFLOW, open);
    forall p: (nat, Str) | 1 <= p.0 < open
      ensures NetIn(t.balance + rows, p.0, p.1) == NetIn(t.balance, p.0, p.1)
      ensures Keys(t.balance + rows, INFLOW, p.0) == Keys(t.balance, INFLOW, p.0)
      ensures Keys(t.balance + rows, OUTFLOW, p.0) == Keys(t.balance, OUTFLOW, p.0)
    {
      AppendElsewhere(t.balance, rows, INFLOW, p.0, p.1);
      AppendElsewhere(t.balance, rows, OUTFLOW, p.0, p.1);
    }
  }

  /** No row of the three flow tables is ever changed or removed. */
  ghost predicate OnlyGrows(t: AccountsTables, t': AccountsTables) {
    && t.balance <= t'.balance
    && (forall p :: p in t.inflow ==> p in t'.inflow && t'.inflow[p] == t.inflow[p])
    && (forall p :: p in t.outflow ==> p in t'.outflow && t'.outflow[p] == t.outflow[p])
    && (forall p :: p in t.income ==> p in t'.income && t'.income[p] == t.income[p])
  }

  lemma RebuiltOnlyGrows(t: AccountsTables, e: nat)
    ensures OnlyGrows(t, Rebuilt(t, e))
  {}

  /** Handling the next block keeps the flow tables equal to a recomputation over all base rows of each
      closed epoch, and changes nothing that was materialised before. */
  lemma HandlingKeepsViews(t: AccountsTables, rows: seq<BalanceRow>, t': AccountsTables, open: nat,
                           e: nat, starts: bool, h: nat, log: map<Str, seq<Transfer>>)
    requires Views(t, open) && e == open + (if starts then 1 else 0)
    requires HandledIn(e, starts, h, log, t, rows, t')
    ensures Views(t', e) && OnlyGrows(t, t')
  {
    hide Closed, Appended, Views;
    AppendedInEpoch(rows, e, h, log);
    ClosedViews(t, open, e, starts);
    AppendKeepsViews(Closed(t, e, starts), rows, e);
  }

  lemma AppendedInEpoch(rows: seq<BalanceRow>, e: nat, h: nat, log: map<Str, seq<Transfer>>)
    requires Appended(rows, e, h, log)
    ensures forall i :: 0 <= i < |rows| ==> rows[i].epoch == e && rows[i].height == h
  {}

  lemma ClosedViews(t: AccountsTables, open: nat, e: nat, starts: bool)
    requires Views(t, open) && e == open + (if starts then 1 else 0)
    ensures Views(Closed(t, e, starts), e) && OnlyGrows(t, Closed(t, e, starts))
  {
    hide Rebuilt;
    if starts {
      CloseKeepsViews(t, open);
      RebuiltOnlyGrows(t, open);
    }
  }

  /* ---------- double-entry bookkeeping ---------- */

  function IncomeAt(t: AccountsTables, e: nat): Str -> int {
    a => OrZero(t.income, (e, a))
  }

  /** Both grouped sums run over the same amounts. */
  lemma {:induction false} SameAmounts(rows: seq<BalanceRow>, e: nat, n: nat)
    requires n <= |rows|
    ensures EpochSumTo(rows, INFLOW, e, n) == EpochSumTo(rows, OUTFLOW, e, n)
  {
    if n > 0 { SameAmounts(rows, e, n - 1); }
  }

  /** In every closed epoch the incomes over all addresses cancel out. */
  lemma IncomesSumToZero(t: AccountsTables, open: nat, e: nat)
    requires Views(t, open) && 1 <= e < open
    ensures SumSet(NamesAt(t.income, e), IncomeAt(t, e)) == 0
  {
    var rows, s, n := t.balance, NamesAt(t.income, e), |t.balance|;
    var income, received, sent := IncomeAt(t, e), GroupTotal(rows, INFLOW, e, n), GroupTotal(rows, OUTFLOW, e, n);
    forall a ensures a in s <==> a in Keys(rows, INFLOW, e) + Keys(rows, OUTFLOW, e) {
      assert (e, a) in t.income <==> a in s;
    }
    forall a | a in s ensures received(a) == income(a) + sent(a) {
      assert (e, a) in t.income;
    }
    SumSetPlus(s, income, sent, received);
    GroupsAddUp(rows, INFLOW, e, s, n);
    GroupsAddUp(rows, OUTFLOW, e, s, n);
    SameAmounts(rows, e, n);
  }

  /** The epochs in which account_income has a row for the address. */
  function EpochsOf(t: AccountsTables, a: Str): (s: set<nat>)
    ensures forall e :: e in s <==> (e, a) in t.income
  {
    set p | p in t.income.Keys && p.1 == a :: p.0
  }

  function IncomeOverEpochs(t: AccountsTables, a: Str): nat -> int {
    (e: nat) => OrZero(t.income, (e, a))
  }

  /** getBalanceSumByAddress: SELECT IFNULL(SUM(income), 0) .. WHERE address = ?. */
  ghost function BalanceSum(t: AccountsTables, a: Str): int {
    SumSet(EpochsOf(t, a), IncomeOverEpochs(t, a))
  }

  /** What the first n rows moved into address a minus what they moved out of it, epochs 1 to open - 1. */
  function NetFlowTo(rows: seq<BalanceRow>, a: Str, open: nat, n: nat): int
    requires n <= |rows|
  {
    if n == 0 then 0
    else
      var r := rows[n - 1];
      NetFlowTo(rows, a, open, n - 1)
      + if 1 <= r.epoch < open then (if r.to == a then r.amount else 0) - (if r.from == a then r.amount else 0) else 0
  }

  lemma {:induction false} NetFlowOfOneMoreEpoch(rows: seq<BalanceRow>, a: Str, open: nat, n: nat)
    requires n <= |rows| && open >= 1
    ensures NetFlowTo(rows, a, open + 1, n)
            == NetFlowTo(rows, a, open, n) + TotalTo(rows, INFLOW, open, a, n) - TotalTo(rows, OUTFLOW, open, a, n)
  {
    if n > 0 { NetFlowOfOneMoreEpoch(rows, a, open, n - 1); }
  }

  lemma {:induction false} NetFlowOfNone(rows: seq<BalanceRow>, a: Str, n: nat)
    requires n <= |rows|
    ensures NetFlowTo(rows, a, 1, n) == 0
  {
    if n > 0 { NetFlowOfNone(rows, a, n - 1); }
  }

  function EpochsBefore(c: nat): (s: set<nat>)
    ensures forall e :: e in s <==> 1 <= e < c
  {
    if c <= 1 then {} else EpochsBefore(c - 1) + {c - 1}
  }

  lemma NetInAt(t: AccountsTables, a: Str, open: nat, e: nat)
    requires Views(t, open) && 1 <= e < open
    ensures OrZero(t.income, (e, a)) == NetIn(t.balance, e, a)
  {
    if (e, a) !in t.income {
      TotalOfNone(t.balance, INFLOW, e, a, |t.balance|);
      TotalOfNone(t.balance, OUTFLOW, e, a, |t.balance|);
    }
  }

  lemma {:induction false} IncomesUpTo(t: AccountsTables, a: Str, open: nat, c: nat)
    requires Views(t, open) && 1 <= c <= open
    ensures SumSet(EpochsBefore(c), IncomeOverEpochs(t, a)) == NetFlowTo(t.balance, a, c, |t.balance|)
    decreases c
  {
    hide Views, OrZero;
    if c == 1 {
      NetFlowOfNone(t.balance, a, |t.balance|);
    } else {
      IncomesUpTo(t, a, open, c - 1);
      SumSetAdd<nat>(EpochsBefore(c - 1), IncomeOverEpochs(t, a), c - 1);
      NetInAt(t, a, open, c - 1);
      NetFlowOfOneMoreEpoch(t.balance, a, c - 1, |t.balance|);
    }
  }

  /** The balance that is served for an address is the net flow through it over all closed epochs from 1. */
  lemma BalanceSumIsNetFlow(t: AccountsTables, a: Str, open: nat)
    requires Views(t, open) && open >= 1
    ensures BalanceSum(t, a) == NetFlowTo(t.balance, a, open, |t.balance|)
  {
    IncomesUpTo(t, a, open, open);
    forall e | e in EpochsOf(t, a) ensures 1 <= e < open {
      assert (e, a) in t.income;
    }
    SumSetExtend<nat>(EpochsOf(t, a), EpochsBefore(open), IncomeOverEpochs(t, a));
  }

  /* ---------- the flow tables, row by row ---------- */

  /** The rows of epoch e that pay an address. */
  function PaysTo(rows: seq<BalanceRow>, e: nat, a: Str): set<nat> {
    set i: nat | i < |rows| && rows[i].epoch == e && rows[i].to == a
  }

  /** The rows of epoch e that an address pays. */
  function PaysFrom(rows: seq<BalanceRow>, e: nat, a: Str): set<nat> {
    set i: nat | i < |rows| && rows[i].epoch == e && rows[i].from == a
  }

  function AmountAt(rows: seq<BalanceRow>): nat -> int {
    (i: nat) => if i < |rows| then rows[i].amount else 0
  }

  lemma FlowTotals(rows: seq<BalanceRow>, e: nat, a: Str)
    ensures Total(rows, INFLOW, e, a) == SumSet(PaysTo(rows, e, a), AmountAt(rows))
    ensures Total(rows, OUTFLOW, e, a) == SumSet(PaysFrom(rows, e, a), AmountAt(rows))
    ensures a in Keys(rows, INFLOW, e) <==> PaysTo(rows, e, a) != {}
    ensures a in Keys(rows, OUTFLOW, e) <==> PaysFrom(rows, e, a) != {}
  {
    TotalIsSum(rows, INFLOW, e, a, AmountAt(rows), |rows|);
    TotalIsSum(rows, OUTFLOW, e, a, AmountAt(rows), |rows|);
    assert Selected(rows, INFLOW, e, a, |rows|) == PaysTo(rows, e, a);
    assert Selected(rows, OUTFLOW, e, a, |rows|) == PaysFrom(rows, e, a);
    hide SumSet, TotalTo;
    if a in Keys(rows, INFLOW, e) {
      var i: nat :| i < |rows| && rows[i].epoch == e && rows[i].to == a;
      assert i in PaysTo(rows, e, a);
    }
    if a in Keys(rows, OUTFLOW, e) {
      var i: nat :| i < |rows| && rows[i].epoch == e && rows[i].from == a;
      assert i in PaysFrom(rows, e, a);
    }
  }

  /** For a closed epoch an address has an inflow row if some row pays it, with the sum of the amounts of these rows;
      an outflow row likewise; and an income row if it has either, with the difference. */
  lemma FlowsRowByRow(t: AccountsTables, open: nat, e: nat, a: Str)
    requires Views(t, open) && 1 <= e < open
    ensures var to, from, amount := PaysTo(t.balance, e, a), PaysFrom(t.balance, e, a), AmountAt(t.balance);
            && ((e, a) in t.inflow <==> to != {})
            && ((e, a) in t.inflow ==> t.inflow[(e, a)] == SumSet(to, amount))
            && ((e, a) in t.outflow <==> from != {})
            && ((e, a) in t.outflow ==> t.outflow[(e, a)] == SumSet(from, amount))
            && ((e, a) in t.income <==> to + from != {})
            && ((e, a) in t.income ==> t.income[(e, a)] == SumSet(to, amount) - SumSet(from, amount))
  {
    FlowTotals(t.balance, e, a);
    hide PaysTo, PaysFrom, Keys, Total;
    var p := (e, a);
    assert p in t.inflow <==> a in Keys(t.balance, INFLOW, e);
    assert p in t.outflow <==> a in Keys(t.balance, OUTFLOW, e);
  }
}
