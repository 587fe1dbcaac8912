/** What balance_history holds throughout a run (indexprotocol/accounts/protocol.go). A transaction log that
    cannot be fetched is taken for an empty one, so the transfers of that block are missing for good: `silent`
    is the set of heights at which that happened when the block was committed. */
module BalanceHistory {
  import opened Bytes
  import opened Schema
  import opened Sql
  import opened EpochContext
  import opened Accounts

  /* ---------- every transfer is recorded once, or its block is silent ---------- */

  function FullLog(chain: Chain, h: nat): map<Str, seq<Transfer>> {
    LogMapTo(chain.transactionLog(h), |chain.transactionLog(h)|)
  }

  function RecordedLog(chain: Chain, silent: set<nat>, h: nat): map<Str, seq<Transfer>> {
    if h in silent then map[] else FullLog(chain, h)
  }

  /** The rows that a block adds. */
  ghost predicate RowsAt(ctx: EpochCtx, chain: Chain, silent: set<nat>, h: nat, rows: seq<BalanceRow>)
    requires ctx.Divisors() && ctx.dardanellesHeight > 0 && h > 0
  {
    Appended(rows, PlaceOf(ctx, h).epoch, h, RecordedLog(chain, silent, h))
  }

  /** balance_history holds the genesis rows and then, for heights 1 to last in order, the rows of each block's
      transaction log, except at the silent heights. */
  ghost predicate BalanceUpTo(ctx: EpochCtx, chain: Chain, genesis: map<Str, int>, silent: set<nat>,
                              balance: seq<BalanceRow>, last: nat)
    requires ctx.Divisors() && ctx.dardanellesHeight > 0
    decreases last
  {
    if last == 0 then GenesisRows(balance, genesis, genesis.Keys)
    else
      exists n: nat ::
        && n <= |balance| && BalanceUpTo(ctx, chain, genesis, silent, balance[..n], last - 1)
        && RowsAt(ctx, chain, silent, last, balance[n..])
  }

  /** Silent heights are heights that were indexed. */
  predicate Past(silent: set<nat>, last: nat) {
    forall h :: h in silent ==> 1 <= h <= last
  }

  /** The silent heights once the next block is committed. */
  function SilentAfter(silent: set<nat>, h: nat, out: Outage): set<nat> {
    if TransactionLogCall in out then silent + {h} else silent
  }

  /** Only the heights indexed so far matter. */
  lemma {:induction false} LaterSilence(ctx: EpochCtx, chain: Chain, genesis: map<Str, int>, silent: set<nat>,
                                        silent': set<nat>, balance: seq<BalanceRow>, last: nat)
    requires ctx.Divisors() && ctx.dardanellesHeight > 0 && BalanceUpTo(ctx, chain, genesis, silent, balance, last)
    requires forall h :: 1 <= h <= last ==> (h in silent <==> h in silent')
    ensures BalanceUpTo(ctx, chain, genesis, silent', balance, last)
    decreases last
  {
    hide PlaceOf, Appended, FullLog;
    if last > 0 {
      var n: nat :| n <= |balance| && BalanceUpTo(ctx, chain, genesis, silent, balance[..n], last - 1)
                    && RowsAt(ctx, chain, silent, last, balance[n..]);
      LaterSilence(ctx, chain, genesis, silent, silent', balance[..n], last - 1);
      assert RowsAt(ctx, chain, silent', last, balance[n..]);
    }
  }

  /** Handling the next block appends its transfers once, or none and its height joins the silent ones. */
  lemma HandlingKeepsBalance(ctx: EpochCtx, chain: Chain, genesis: map<Str, int>, silent: set<nat>, last: nat,
                             out: Outage, t: AccountsTables, rows: seq<BalanceRow>, t': AccountsTables)
    requires ctx.Divisors() && ctx.dardanellesHeight > 0 && Past(silent, last)
    requires BalanceUpTo(ctx, chain, genesis, silent, t.balance, last)
             && Handled(ctx, chain, last + 1, out, t, rows, t')
    ensures var silent' := SilentAfter(silent, last + 1, out);
            Past(silent', last + 1) && BalanceUpTo(ctx, chain, genesis, silent', t'.balance, last + 1)
  {
    hide PlaceOf, Appended, LogMapTo;
    var silent' := SilentAfter(silent, last + 1, out);
    LaterSilence(ctx, chain, genesis, silent, silent', t.balance, last);
    var n := |t.balance|;
    assert t'.balance == t.balance + rows;
    assert t'.balance[..n] == t.balance && t'.balance[n..] == rows;
    assert RowsAt(ctx, chain, silent', last + 1, t'.balance[n..]);
  }

  /* ---------- the rows of one height ---------- */

  /** The rows of height h among the first n, in their order. */
  function AtHeightTo(rows: seq<BalanceRow>, h: nat, n: nat): seq<BalanceRow>
    requires n <= |rows|
  {
    if n == 0 then [] else AtHeightTo(rows, h, n - 1) + if rows[n - 1].height == h then [rows[n - 1]] else []
  }

  function AtHeight(rows: seq<BalanceRow>, h: nat): seq<BalanceRow> {
    AtHeightTo(rows, h, |rows|)
  }

  lemma {:induction false} AtHeightPrefix(rows: seq<BalanceRow>, h: nat, k: nat, n: nat)
    requires n <= k <= |rows|
    ensures AtHeightTo(rows, h, n) == AtHeightTo(rows[..k], h, n)
  {
    if n > 0 { AtHeightPrefix(rows, h, k, n - 1); }
  }

  lemma {:induction false} NoneOfOtherHeights(rows: seq<BalanceRow>, h: nat, k: nat, n: nat)
    requires k <= n <= |rows| && forall i :: k <= i < n ==> rows[i].height != h
    ensures AtHeightTo(rows, h, n) == AtHeightTo(rows, h, k)
    decreases n - k
  {
    if k < n { NoneOfOtherHeights(rows, h, k, n - 1); }
  }

  lemma {:induction false} AllOfHeight(rows: seq<BalanceRow>, h: nat, k: nat, n: nat)
    requires k <= n <= |rows| && forall i :: k <= i < n ==> rows[i].height == h
    ensures AtHeightTo(rows, h, n) == AtHeightTo(rows, h, k) + rows[k..n]
    decreases n - k
  {
    if k < n {
      AllOfHeight(rows, h, k, n - 1);
      assert rows[k..n] == rows[k..n - 1] + [rows[n - 1]];
    }
  }

  lemma {:induction false} HeightsBounded(ctx: EpochCtx, chain: Chain, genesis: map<Str, int>, silent: set<nat>,
                                          balance: seq<BalanceRow>, last: nat)
    requires ctx.Divisors() && ctx.dardanellesHeight > 0 && BalanceUpTo(ctx, chain, genesis, silent, balance, last)
    ensures forall i :: 0 <= i < |balance| ==> balance[i].height <= last
    decreases last
  {
    hide PlaceOf, Appended, FullLog;
    if last > 0 {
      var n: nat :| n <= |balance| && BalanceUpTo(ctx, chain, genesis, silent, balance[..n], last - 1)
                    && RowsAt(ctx, chain, silent, last, balance[n..]);
      HeightsBounded(ctx, chain, genesis, silent, balance[..n], last - 1);
      AppendedInEpoch(balance[n..], PlaceOf(ctx, last).epoch, last, RecordedLog(chain, silent, last));
      forall i | 0 <= i < |balance| ensures balance[i].height <= last {
        if i < n { assert balance[i] == balance[..n][i]; } else { assert balance[i] == balance[n..][i - n]; }
      }
    }
  }

  /** The rows of a height are exactly those that its block added. */
  lemma {:induction false} HeightHoldsItsRows(ctx: EpochCtx, chain: Chain, genesis: map<Str, int>, silent: set<nat>,
                                              balance: seq<BalanceRow>, last: nat, h: nat)
    requires ctx.Divisors() && ctx.dardanellesHeight > 0 && BalanceUpTo(ctx, chain, genesis, silent, balance, last)
    requires 1 <= h <= last
    ensures RowsAt(ctx, chain, silent, h, AtHeight(balance, h))
    decreases last
  {
    hide PlaceOf, Appended, FullLog;
    var n: nat :| n <= |balance| && BalanceUpTo(ctx, chain, genesis, silent, balance[..n], last - 1)
                  && RowsAt(ctx, chain, silent, last, balance[n..]);
    AppendedInEpoch(balance[n..], PlaceOf(ctx, last).epoch, last, RecordedLog(chain, silent, last));
    forall i | n <= i < |balance| ensures balance[i].height == last { assert balance[i] == balance[n..][i - n]; }
    AtHeightPrefix(balance, h, n, n);
    if h < last {
      HeightHoldsItsRows(ctx, chain, genesis, silent, balance[..n], last - 1, h);
      NoneOfOtherHeights(balance, h, n, |balance|);
    } else {
      HeightsBounded(ctx, chain, genesis, silent, balance[..n], last - 1);
      NoneOfOtherHeights(balance[..n], h, 0, n);
      AllOfHeight(balance, h, n, |balance|);
      assert [] + balance[n..|balance|] == balance[n..];
    }
  }

  /* ---------- exactly when a block's transfers are there ---------- */

  /** The rows of all transfers in the first n logs of a block. */
  function LoggedRows(logs: seq<(Str, seq<Transfer>)>, e: nat, h: nat, n: nat): seq<BalanceRow>
    requires n <= |logs|
  {
    if n == 0 then [] else LoggedRows(logs, e, h, n - 1) + TransferRows(e, h, logs[n - 1].0, logs[n - 1].1)
  }

  /** The rows are those of all transfers logged for the block, each once. */
  ghost predicate AllRecorded(rows: seq<BalanceRow>, logs: seq<(Str, seq<Transfer>)>, e: nat, h: nat) {
    multiset(rows) == multiset(LoggedRows(logs, e, h, |logs|))
  }

  /** No log with transfers is followed by another one of the same action. */
  predicate NothingOverwritten(logs: seq<(Str, seq<Transfer>)>) {
    forall i, j :: 0 <= i < j < |logs| && logs[i].0 == logs[j].0 ==> logs[i].1 == []
  }

  /** How often a row is among those of an action's transfers. */
  function Times(r: BalanceRow, e: nat, h: nat, hash: Str, txs: seq<Transfer>): nat {
    multiset(TransferRows(e, h, hash, txs))[r]
  }

  lemma TimesElsewhere(r: BalanceRow, e: nat, h: nat, hash: Str, txs: seq<Transfer>)
    requires r.actionHash != hash || txs == []
    ensures Times(r, e, h, hash, txs) == 0
  {
    assert forall i :: 0 <= i < |txs| ==> TransferRows(e, h, hash, txs)[i].actionHash == hash;
    assert r !in TransferRows(e, h, hash, txs);
  }

  /** How often a row is among those of a map's actions. */
  function TimesIn(r: BalanceRow, e: nat, h: nat, log: map<Str, seq<Transfer>>): nat {
    if r.actionHash in log then Times(r, e, h, r.actionHash, log[r.actionHash]) else 0
  }

  lemma {:induction false} ActionTimes(order: seq<Str>, e: nat, h: nat, log: map<Str, seq<Transfer>>, r: BalanceRow,
                                       n: nat)
    requires n <= |order| && (forall i :: 0 <= i < |order| ==> order[i] in log)
    requires forall i, j :: 0 <= i < j < |order| ==> order[i] != order[j]
    ensures multiset(ActionRows(order, e, h, log, n))[r] == if r.actionHash in order[..n] then TimesIn(r, e, h, log)
            else 0
  {
    hide TransferRows;
    if n > 0 {
      ActionTimes(order, e, h, log, r, n - 1);
      assert order[..n] == order[..n - 1] + [order[n - 1]];
      if order[n - 1] != r.actionHash { TimesElsewhere(r, e, h, order[n - 1], log[order[n - 1]]); }
    }
  }

  lemma AppendedTimes(rows: seq<BalanceRow>, e: nat, h: nat, log: map<Str, seq<Transfer>>, r: BalanceRow)
    requires Appended(rows, e, h, log)
    ensures multiset(rows)[r] == TimesIn(r, e, h, log)
  {
    var order: seq<Str> :| VisitsAll(order, log.Keys) && rows == ActionRows(order, e, h, log, |order|);
    ActionTimes(order, e, h, log, r, |order|);
    assert order[..|order|] == order;
  }

  /** If nothing is overwritten, the map has every row as often as the logs. */
  lemma {:induction false} LoggedTimes(logs: seq<(Str, seq<Transfer>)>, e: nat, h: nat, r: BalanceRow, n: nat)
    requires n <= |logs| && NothingOverwritten(logs)
    ensures multiset(LoggedRows(logs, e, h, n))[r] == TimesIn(r, e, h, LogMapTo(logs, n))
    ensures forall j :: n <= j < |logs| && logs[j].0 in LogMapTo(logs, n) ==> LogMapTo(logs, n)[logs[j].0] == []
  {
    hide TransferRows;
    if n > 0 {
      LoggedTimes(logs, e, h, r, n - 1);
      var hash := logs[n - 1].0;
      if hash != r.actionHash {
        TimesElsewhere(r, e, h, hash, logs[n - 1].1);
      } else {
        TimesElsewhere(r, e, h, hash, []);
      }
    }
  }

  lemma {:induction false} OneLogCounts(logs: seq<(Str, seq<Transfer>)>, e: nat, h: nat, r: BalanceRow, i: nat, n: nat)
    requires i < n <= |logs|
    ensures multiset(LoggedRows(logs, e, h, n))[r] >= Times(r, e, h, logs[i].0, logs[i].1)
    decreases n
  {
    if i < n - 1 { OneLogCounts(logs, e, h, r, i, n - 1); }
  }

  lemma {:induction false} TwoLogsCount(logs: seq<(Str, seq<Transfer>)>, e: nat, h: nat, r: BalanceRow, i: nat, j: nat,
                                        n: nat)
    requires i < j < n <= |logs|
    ensures multiset(LoggedRows(logs, e, h, n))[r]
            >= Times(r, e, h, logs[i].0, logs[i].1) + Times(r, e, h, logs[j].0, logs[j].1)
    decreases n
  {
    if j < n - 1 { TwoLogsCount(logs, e, h, r, i, j, n - 1); } else { OneLogCounts(logs, e, h, r, i, n - 1); }
  }

  lemma {:induction false} LastLog(logs: seq<(Str, seq<Transfer>)>, i: nat, n: nat) returns (l: nat)
    requires i < n <= |logs|
    ensures i <= l < n && logs[l].0 == logs[i].0 && LastOfAction(logs, l, n)
    decreases n
  {
    if i == n - 1 || logs[n - 1].0 == logs[i].0 {
      l := n - 1;
    } else {
      l := LastLog(logs, i, n - 1);
    }
  }

  lemma FirstTransfer(e: nat, h: nat, hash: Str, txs: seq<Transfer>) returns (r: BalanceRow)
    requires txs != []
    ensures r.actionHash == hash && Times(r, e, h, hash, txs) > 0
  {
    var rows := TransferRows(e, h, hash, txs);
    r := rows[0];
    assert r in rows;
  }

  /** The map has a row of an overwritten log less often than the logs. */
  lemma OverwrittenIsLost(logs: seq<(Str, seq<Transfer>)>, e: nat, h: nat) returns (r: BalanceRow)
    requires !NothingOverwritten(logs)
    ensures TimesIn(r, e, h, LogMapTo(logs, |logs|)) < multiset(LoggedRows(logs, e, h, |logs|))[r]
  {
    var i, j :| 0 <= i < j < |logs| && logs[i].0 == logs[j].0 && logs[i].1 != [];
    hide Times, LoggedRows, LogMapTo;
    var l := LastLog(logs, j, |logs|);
    r := FirstTransfer(e, h, logs[i].0, logs[i].1);
    LogMapHoldsLast(logs, l, |logs|);
    TwoLogsCount(logs, e, h, r, i, l, |logs|);
  }

  lemma AllRecordedIff(rows: seq<BalanceRow>, logs: seq<(Str, seq<Transfer>)>, e: nat, h: nat)
    requires Appended(rows, e, h, LogMapTo(logs, |logs|))
    ensures AllRecorded(rows, logs, e, h) <==> NothingOverwritten(logs)
  {
    hide Appended, LoggedRows, LogMapTo, TimesIn;
    if NothingOverwritten(logs) {
      forall r ensures multiset(rows)[r] == multiset(LoggedRows(logs, e, h, |logs|))[r] {
        AppendedTimes(rows, e, h, LogMapTo(logs, |logs|), r);
        LoggedTimes(logs, e, h, r, |logs|);
      }
    } else {
      var r := OverwrittenIsLost(logs, e, h);
      AppendedTimes(rows, e, h, LogMapTo(logs, |logs|), r);
    }
  }

  lemma NoRowsRecordedIff(logs: seq<(Str, seq<Transfer>)>, e: nat, h: nat)
    ensures AllRecorded([], logs, e, h) <==> LoggedRows(logs, e, h, |logs|) == []
  {
    var all := LoggedRows(logs, e, h, |logs|);
    if all != [] { assert all[0] in multiset(all); }
  }

  /** No action has a transaction. */
  predicate NoTransactions(log: map<Str, seq<Transfer>>) {
    forall k :: k in log ==> log[k] == []
  }

  lemma NothingAppended(rows: seq<BalanceRow>, e: nat, h: nat)
    requires Appended(rows, e, h, map[])
    ensures rows == []
  {}

  lemma {:induction false} OrderExists(keys: set<Str>) returns (order: seq<Str>)
    ensures VisitsAll(order, keys)
    decreases keys
  {
    order := [];
    if keys != {} {
      var k :| k in keys;
      var rest := OrderExists(keys - {k});
      VisitOneMore(rest, keys - {k}, k);
      assert keys - {k} + {k} == keys;
      order := rest + [k];
    }
  }

  lemma {:induction false} EmptyActions(order: seq<Str>, e: nat, h: nat, log: map<Str, seq<Transfer>>, n: nat)
    requires n <= |order| && forall i :: 0 <= i < n ==> order[i] in log
    ensures ActionRows(order, e, h, log, n) == [] <==> forall i :: 0 <= i < n ==> log[order[i]] == []
  {
    if n > 0 { EmptyActions(order, e, h, log, n - 1); }
  }

  lemma NothingToAppendIff(e: nat, h: nat, log: map<Str, seq<Transfer>>)
    ensures Appended([], e, h, log) <==> NoTransactions(log)
  {
    if Appended([], e, h, log) {
      var order: seq<Str> :| VisitsAll(order, log.Keys) && [] == ActionRows(order, e, h, log, |order|);
      EmptyActions(order, e, h, log, |order|);
      forall k | k in log ensures log[k] == [] {
        var i :| 0 <= i < |order| && order[i] == k;
      }
    }
    if NoTransactions(log) {
      var order := OrderExists(log.Keys);
      EmptyActions(order, e, h, log, |order|);
    }
  }

  /** For every height indexed so far, balance_history holds the transfers that the map of its log has, each once,
      if and only if the log was fetched when the block was committed or the map has none. */
  lemma RecordedIff(ctx: EpochCtx, chain: Chain, genesis: map<Str, int>, silent: set<nat>, balance: seq<BalanceRow>,
                    last: nat, h: nat)
    requires ctx.Divisors() && ctx.dardanellesHeight > 0 && BalanceUpTo(ctx, chain, genesis, silent, balance, last)
    requires 1 <= h <= last
    ensures Appended(AtHeight(balance, h), PlaceOf(ctx, h).epoch, h, FullLog(chain, h))
       <==> h !in silent || NoTransactions(FullLog(chain, h))
    ensures h in silent ==> AtHeight(balance, h) == []
  {
    hide PlaceOf, Appended, FullLog;
    HeightHoldsItsRows(ctx, chain, genesis, silent, balance, last, h);
    if h in silent {
      NothingAppended(AtHeight(balance, h), PlaceOf(ctx, h).epoch, h);
      NothingToAppendIff(PlaceOf(ctx, h).epoch, h, FullLog(chain, h));
    }
  }

  /** It holds all transfers that were logged for the block, each once, if and only if there were none, or the log
      was fetched and no log with transfers was followed by another one of the same action. */
  lemma LoggedRecordedIff(ctx: EpochCtx, chain: Chain, genesis: map<Str, int>, silent: set<nat>,
                          balance: seq<BalanceRow>, last: nat, h: nat)
    requires ctx.Divisors() && ctx.dardanellesHeight > 0 && BalanceUpTo(ctx, chain, genesis, silent, balance, last)
    requires 1 <= h <= last
    ensures var e, logs := PlaceOf(ctx, h).epoch, chain.transactionLog(h);
            AllRecorded(AtHeight(balance, h), logs, e, h)
            <==> LoggedRows(logs, e, h, |logs|) == [] || (h !in silent && NothingOverwritten(logs))
  {
    hide PlaceOf, Appended, AllRecorded, LogMapTo, LoggedRows, AtHeight, NothingOverwritten, BalanceUpTo;
    var e, logs, rows := PlaceOf(ctx, h).epoch, chain.transactionLog(h), AtHeight(balance, h);
    HeightHoldsItsRows(ctx, chain, genesis, silent, balance, last, h);
    NoRowsRecordedIff(logs, e, h);
    if h in silent {
      NothingAppended(rows, e, h);
    } else {
      AllRecordedIff(rows, logs, e, h);
      if LoggedRows(logs, e, h, |logs|) == [] {
        NothingLoggedNothingLost(logs, e, h);
      }
    }
  }

  lemma {:induction false} NoRowsNoTransfers(logs: seq<(Str, seq<Transfer>)>, e: nat, h: nat, n: nat)
    requires n <= |logs| && LoggedRows(logs, e, h, n) == []
    ensures forall i :: 0 <= i < n ==> logs[i].1 == []
  {
    if n > 0 {
      var before, own := LoggedRows(logs, e, h, n - 1), TransferRows(e, h, logs[n - 1].0, logs[n - 1].1);
      assert |before + own| == 0;
      NoRowsNoTransfers(logs, e, h, n - 1);
    }
  }

  lemma NothingLoggedNothingLost(logs: seq<(Str, seq<Transfer>)>, e: nat, h: nat)
    requires LoggedRows(logs, e, h, |logs|) == []
    ensures NothingOverwritten(logs)
  {
    NoRowsNoTransfers(logs, e, h, |logs|);
  }

  /** One block with one transfer: its row is there if the call succeeds, and is missing if it fails. */
  lemma OneTransferLost(chain: Chain, e: nat, rows: seq<BalanceRow>)
    requires chain.transactionLog(1) == [([1], [Transfer([], [2], [3], 7)])]
    ensures Appended(rows, e, 1, FetchedLog(chain, 1, {})) ==> rows == [BalanceRow(e, 1, [1], [], [2], [3], 7)]
    ensures Appended(rows, e, 1, FetchedLog(chain, 1, {TransactionLogCall})) ==> rows == []
  {
    if Appended(rows, e, 1, FetchedLog(chain, 1, {TransactionLogCall})) { NothingAppended(rows, e, 1); }
    var log := FetchedLog(chain, 1, {});
    assert LogMapTo(chain.transactionLog(1), 1)
           == LogMapTo(chain.transactionLog(1), 0)[[1] := [Transfer([], [2], [3], 7)]];
    assert log == map[[1] := [Transfer([], [2], [3], 7)]];
    if Appended(rows, e, 1, log) {
      var order: seq<Str> :| VisitsAll(order, log.Keys) && rows == ActionRows(order, e, 1, log, |order|);
      OnlyOneKey(order, [1], log.Keys);
      assert order == [[1]];
      assert ActionRows(order, e, 1, log, 0) == [];
      assert TransferRows(e, 1, [1], log[[1]]) == [BalanceRow(e, 1, [1], [], [2], [3], 7)];
    }
  }

  lemma OnlyOneKey(order: seq<Str>, k: Str, keys: set<Str>)
    requires VisitsAll(order, keys) && keys == {k}
    ensures |order| == 1 && order[0] == k
  {
    assert k in order;
    if |order| > 1 { VisitedOnce(order, keys, 0, 1); }
  }

  lemma VisitedOnce(order: seq<Str>, keys: set<Str>, i: nat, j: nat)
    requires VisitsAll(order, keys) && i < j < |order|
    ensures order[i] in keys && order[j] in keys && order[i] != order[j]
  {}

  /* ---------- the flows do not depend on the order of actions ---------- */

  /** What one action contributes to a group. */
  ghost function ActionTotal(q: Query<BalanceRow>, e: nat, a: Str, epoch: nat, h: nat,
                             log: map<Str, seq<Transfer>>): Str -> int
  {
    k => if k in log then Total(TransferRows(epoch, h, k, log[k]), q, e, a) else 0
  }

  function Visited(order: seq<Str>, n: nat): set<Str>
    requires n <= |order|
  {
    set i | 0 <= i < n :: order[i]
  }

  lemma {:induction false} ActionsTotal(order: seq<Str>, epoch: nat, h: nat, log: map<Str, seq<Transfer>>,
                                        q: Query<BalanceRow>, e: nat, a: Str, n: nat)
    requires n <= |order| && (forall i :: 0 <= i < n ==> order[i] in log)
    requires forall i, j :: 0 <= i < j < n ==> order[i] != order[j]
    ensures Total(ActionRows(order, epoch, h, log, n), q, e, a)
            == SumSet(Visited(order, n), ActionTotal(q, e, a, epoch, h, log))
  {
    if n > 0 {
      var k := order[n - 1];
      ActionsTotal(order, epoch, h, log, q, e, a, n - 1);
      var before, added := ActionRows(order, epoch, h, log, n - 1), TransferRows(epoch, h, k, log[k]);
      TotalConcat(before, added, q, e, a, |added|);
      assert Visited(order, n) == Visited(order, n - 1) + {k};
      SumSetAdd(Visited(order, n - 1), ActionTotal(q, e, a, epoch, h, log), k);
    }
  }

  lemma AppendedTotal(rows: seq<BalanceRow>, epoch: nat, h: nat, log: map<Str, seq<Transfer>>, q: Query<BalanceRow>,
                      e: nat, a: Str)
    requires Appended(rows, epoch, h, log)
    ensures Total(rows, q, e, a) == SumSet(log.Keys, ActionTotal(q, e, a, epoch, h, log))
  {
    hide Total;
    var order: seq<Str> :| VisitsAll(order, log.Keys) && rows == ActionRows(order, epoch, h, log, |order|);
    ActionsTotal(order, epoch, h, log, q, e, a, |order|);
    assert Visited(order, |order|) == log.Keys;
  }

  ghost predicate HasRow(rows: seq<BalanceRow>, q: Query<BalanceRow>, e: nat, a: Str) {
    exists i :: 0 <= i < |rows| && q.Selects(rows[i], e, a)
  }

  lemma {:induction false} ActionsMention(order: seq<Str>, epoch: nat, h: nat, log: map<Str, seq<Transfer>>,
                                          q: Query<BalanceRow>, e: nat, a: Str, n: nat)
    requires n <= |order| && forall i :: 0 <= i < n ==> order[i] in log
    ensures HasRow(ActionRows(order, epoch, h, log, n), q, e, a)
       <==> exists i :: 0 <= i < n && HasRow(TransferRows(epoch, h, order[i], log[order[i]]), q, e, a)
  {
    if n > 0 {
      ActionsMention(order, epoch, h, log, q, e, a, n - 1);
      HasRowConcat(ActionRows(order, epoch, h, log, n - 1), TransferRows(epoch, h, order[n - 1], log[order[n - 1]]), q,
                   e, a);
      hide HasRow, TransferRows;
    }
  }

  lemma HasRowConcat(rows: seq<BalanceRow>, added: seq<BalanceRow>, q: Query<BalanceRow>, e: nat, a: Str)
    ensures HasRow(rows + added, q, e, a) <==> HasRow(rows, q, e, a) || HasRow(added, q, e, a)
  {
    var all := rows + added;
    if i :| 0 <= i < |rows| && q.Selects(rows[i], e, a) { assert q.Selects(all[i], e, a); }
    if i :| 0 <= i < |added| && q.Selects(added[i], e, a) { assert q.Selects(all[|rows| + i], e, a); }
  }

  lemma AppendedMentions(rows: seq<BalanceRow>, epoch: nat, h: nat, log: map<Str, seq<Transfer>>, q: Query<BalanceRow>,
                         e: nat, a: Str)
    requires Appended(rows, epoch, h, log)
    ensures HasRow(rows, q, e, a) <==> exists k :: k in log && HasRow(TransferRows(epoch, h, k, log[k]), q, e, a)
  {
    hide HasRow, TransferRows;
    var order: seq<Str> :| VisitsAll(order, log.Keys) && rows == ActionRows(order, epoch, h, log, |order|);
    ActionsMention(order, epoch, h, log, q, e, a, |order|);
    if k :| k in log && HasRow(TransferRows(epoch, h, k, log[k]), q, e, a) {
      var i :| 0 <= i < |order| && order[i] == k;
    }
  }

  lemma HasRowIsKey(rows: seq<BalanceRow>, q: Query<BalanceRow>, e: nat, a: Str)
    ensures HasRow(rows, q, e, a) <==> a in Keys(rows, q, e)
  {}

  /** The group is the same in both tables. */
  ghost predicate SameGroup(b: seq<BalanceRow>, b': seq<BalanceRow>, q: Query<BalanceRow>, e: nat, a: Str) {
    Total(b, q, e, a) == Total(b', q, e, a) && (HasRow(b, q, e, a) <==> HasRow(b', q, e, a))
  }

  lemma SameGroupConcat(b: seq<BalanceRow>, x: seq<BalanceRow>, b': seq<BalanceRow>, x': seq<BalanceRow>,
                        q: Query<BalanceRow>, e: nat, a: Str)
    requires SameGroup(b, b', q, e, a) && SameGroup(x, x', q, e, a)
    ensures SameGroup(b + x, b' + x', q, e, a)
  {
    TotalConcat(b, x, q, e, a, |x|);
    TotalConcat(b', x', q, e, a, |x'|);
    HasRowConcat(b, x, q, e, a);
    HasRowConcat(b', x', q, e, a);
    assert |b + x| == |b| + |x| && |b' + x'| == |b'| + |x'|;
  }

  lemma SameAppended(x: seq<BalanceRow>, x': seq<BalanceRow>, epoch: nat, h: nat, log: map<Str, seq<Transfer>>,
                     q: Query<BalanceRow>, e: nat, a: Str)
    requires Appended(x, epoch, h, log) && Appended(x', epoch, h, log)
    ensures SameGroup(x, x', q, e, a)
  {
    hide Appended, Total, HasRow;
    AppendedTotal(x, epoch, h, log, q, e, a);
    AppendedTotal(x', epoch, h, log, q, e, a);
    AppendedMentions(x, epoch, h, log, q, e, a);
    AppendedMentions(x', epoch, h, log, q, e, a);
  }

  lemma {:induction false} GenesisElsewhere(rows: seq<BalanceRow>, q: Query<BalanceRow>, e: nat, a: Str, n: nat)
    requires n <= |rows| && forall i :: 0 <= i < |rows| ==> q.epochOf(rows[i]) != e
    ensures TotalTo(rows, q, e, a, n) == 0 && !HasRow(rows, q, e, a)
  {
    if n > 0 { GenesisElsewhere(rows, q, e, a, n - 1); }
  }

  /** Two histories with the same silent heights have the same groups in every epoch after genesis, whatever
      order the actions of each block were recorded in. */
  lemma {:induction false} SameFlows(ctx: EpochCtx, chain: Chain, genesis: map<Str, int>, silent: set<nat>,
                                     b: seq<BalanceRow>, b': seq<BalanceRow>, last: nat, q: Query<BalanceRow>, e: nat,
                                     a: Str)
    requires ctx.Divisors() && ctx.dardanellesHeight > 0 && e > 0 && forall r :: q.epochOf(r) == r.epoch
    requires BalanceUpTo(ctx, chain, genesis, silent, b, last) && BalanceUpTo(ctx, chain, genesis, silent, b', last)
    ensures SameGroup(b, b', q, e, a)
    decreases last
  {
    hide PlaceOf, Appended, Total, HasRow, FullLog, SameGroup;
    if last == 0 {
      GenesisGroup(b, genesis, q, e, a);
      GenesisGroup(b', genesis, q, e, a);
      NoGroup(b, b', q, e, a);
    } else {
      var n: nat :| n <= |b| && BalanceUpTo(ctx, chain, genesis, silent, b[..n], last - 1)
          && RowsAt(ctx, chain, silent, last, b[n..]);
      var k: nat :| k <= |b'| && BalanceUpTo(ctx, chain, genesis, silent, b'[..k], last - 1)
          && RowsAt(ctx, chain, silent, last, b'[k..]);
      SameFlows(ctx, chain, genesis, silent, b[..n], b'[..k], last - 1, q, e, a);
      SameAppended(b[n..], b'[k..], PlaceOf(ctx, last).epoch, last, RecordedLog(chain, silent, last), q, e, a);
      SameGroupConcat(b[..n], b[n..], b'[..k], b'[k..], q, e, a);
      assert b[..n] + b[n..] == b && b'[..k] + b'[k..] == b';
    }
  }

  lemma GenesisGroup(b: seq<BalanceRow>, genesis: map<Str, int>, q: Query<BalanceRow>, e: nat, a: Str)
    requires GenesisRows(b, genesis, genesis.Keys) && e > 0 && forall r :: q.epochOf(r) == r.epoch
    ensures Total(b, q, e, a) == 0 && !HasRow(b, q, e, a)
  {
    GenesisElsewhere(b, q, e, a, |b|);
  }

  lemma NoGroup(b: seq<BalanceRow>, b': seq<BalanceRow>, q: Query<BalanceRow>, e: nat, a: Str)
    requires Total(b, q, e, a) == 0 == Total(b', q, e, a) && !HasRow(b, q, e, a) && !HasRow(b', q, e, a)
    ensures SameGroup(b, b', q, e, a)
  {}

  /** So the three flow tables are the same as well. */
  lemma SameFlowTables(ctx: EpochCtx, chain: Chain, genesis: map<Str, int>, silent: set<nat>,
                       t: AccountsTables, t': AccountsTables, last: nat, open: nat)
    requires ctx.Divisors() && ctx.dardanellesHeight > 0
    requires BalanceUpTo(ctx, chain, genesis, silent, t.balance, last)
             && BalanceUpTo(ctx, chain, genesis, silent, t'.balance, last)
    requires Views(t, open) && Views(t', open)
    ensures t.inflow == t'.inflow && t.outflow == t'.outflow && t.income == t'.income
  {
    forall e: nat, a | e > 0
      ensures SameGroup(t.balance, t'.balance, INFLOW, e, a) && SameGroup(t.balance, t'.balance, OUTFLOW, e, a)
    {
      hide *;
      FlowQueries();
      SameFlows(ctx, chain, genesis, silent, t.balance, t'.balance, last, INFLOW, e, a);
      SameFlows(ctx, chain, genesis, silent, t.balance, t'.balance, last, OUTFLOW, e, a);
    }
    hide BalanceUpTo, Total;
    SameFlowTable(t.inflow, t'.inflow, t.balance, t'.balance, INFLOW, open);
    SameFlowTable(t.outflow, t'.outflow, t.balance, t'.balance, OUTFLOW, open);
    SameIncome(t, t', open);
  }

  lemma FlowQueries()
    ensures (forall r :: INFLOW.epochOf(r) == r.epoch) && forall r :: OUTFLOW.epochOf(r) == r.epoch
  {}

  lemma SameFlowTable(m: map<(nat, Str), int>, m': map<(nat, Str), int>, b: seq<BalanceRow>, b': seq<BalanceRow>,
                      q: Query<BalanceRow>, open: nat)
    requires Materialised(m, b, q, open) && Materialised(m', b', q, open)
    requires forall e: nat, a :: e > 0 ==> SameGroup(b, b', q, e, a)
    ensures m == m'
  {
    hide Total, HasRow;
    forall p: (nat, Str)
      ensures p in m <==> p in m'
      ensures p in m && p in m' ==> m[p] == m'[p]
    {
      HasRowIsKey(b, q, p.0, p.1);
      HasRowIsKey(b', q, p.0, p.1);
      if p.0 > 0 { assert SameGroup(b, b', q, p.0, p.1); }
    }
  }

  lemma SameIncome(t: AccountsTables, t': AccountsTables, open: nat)
    requires IncomeView(t, open) && IncomeView(t', open)
    requires forall e: nat, a :: e > 0 ==>
               SameGroup(t.balance, t'.balance, INFLOW, e, a) && SameGroup(t.balance, t'.balance, OUTFLOW, e, a)
    ensures t.income == t'.income
  {
    hide Total, HasRow;
    forall p: (nat, Str)
      ensures p in t.income <==> p in t'.income
      ensures p in t.income && p in t'.income ==> t.income[p] == t'.income[p]
    {
      HasRowIsKey(t.balance, INFLOW, p.0, p.1);
      HasRowIsKey(t'.balance, INFLOW, p.0, p.1);
      HasRowIsKey(t.balance, OUTFLOW, p.0, p.1);
      HasRowIsKey(t'.balance, OUTFLOW, p.0, p.1);
      if p.0 > 0 { assert SameGroup(t.balance, t'.balance, INFLOW, p.0, p.1); }
    }
  }

  /* ---------- the genesis rows ---------- */

  lemma GenesisIsFound(balance: seq<BalanceRow>, genesis: map<Str, int>)
    requires GenesisRows(balance, genesis, genesis.Keys) && genesis.Keys != {}
    ensures HasGenesis(balance)
  {
    var a :| a in genesis;
    assert GenesisRow(a, genesis[a]) in balance;
  }

  lemma GenesisInLonger(balance: seq<BalanceRow>, n: nat)
    requires n <= |balance| && HasGenesis(balance[..n])
    ensures HasGenesis(balance)
  {
    var i :| 0 <= i < n && balance[..n][i].actionHash == GENESIS_HASH;
    assert balance[i] == balance[..n][i];
  }

  /** A restart finds the genesis rows in place, if there are any to write. */
  lemma {:induction false} GenesisStays(ctx: EpochCtx, chain: Chain, genesis: map<Str, int>, silent: set<nat>,
                                        balance: seq<BalanceRow>, last: nat)
    requires ctx.Divisors() && ctx.dardanellesHeight > 0 && BalanceUpTo(ctx, chain, genesis, silent, balance, last)
    ensures genesis.Keys != {} ==> HasGenesis(balance)
    decreases last
  {
    hide PlaceOf, RowsAt, HasGenesis, GenesisRows;
    if genesis.Keys != {} {
      if last == 0 {
        GenesisIsFound(balance, genesis);
      } else {
        var n: nat :| n <= |balance| && BalanceUpTo(ctx, chain, genesis, silent, balance[..n], last - 1)
                      && RowsAt(ctx, chain, silent, last, balance[n..]);
        GenesisStays(ctx, chain, genesis, silent, balance[..n], last - 1);
        GenesisInLonger(balance, n);
      }
    }
  }
}
