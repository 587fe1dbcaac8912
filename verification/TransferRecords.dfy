/** The rows of balance_history against the logged transfers, one by one and column by column
    (indexprotocol/accounts/protocol.go). */
module TransferRecords {
  import opened Bytes
  import opened Schema
  import opened Sql
  import opened Accounts
  import opened BalanceHistory

  /** A logged transfer: the position of its log, and its own in the log. */
  type TransferPosition = (nat, nat)

  /** The columns of a row that shows a transfer. */
  predicate Shows(r: BalanceRow, e: nat, h: nat, hash: Str, tx: Transfer) {
    && r.epoch == e && r.height == h && r.actionHash == hash && r.actionType == tx.actionType
    && r.from == tx.sender && r.to == tx.recipient && r.amount == tx.amount
  }

  /** The transfers of the first n logs that a row shows. */
  function Shown(r: BalanceRow, logs: seq<(Str, seq<Transfer>)>, e: nat, h: nat, n: nat): set<TransferPosition>
    requires n <= |logs|
  {
    set i: nat, j: nat | i < n && j < |logs[i].1| && Shows(r, e, h, logs[i].0, logs[i].1[j]) :: (i, j)
  }

  /** Those of the first n transfers of log i. */
  function ShownIn(r: BalanceRow, e: nat, h: nat, hash: Str, txs: seq<Transfer>, i: nat, n: nat): set<TransferPosition>
    requires n <= |txs|
  {
    set j: nat | j < n && Shows(r, e, h, hash, txs[j]) :: (i, j)
  }

  lemma OneMoreShown(r: BalanceRow, e: nat, h: nat, hash: Str, txs: seq<Transfer>, i: nat, n: nat)
    requires 0 < n <= |txs|
    ensures |ShownIn(r, e, h, hash, txs, i, n)|
            == |ShownIn(r, e, h, hash, txs, i, n - 1)| + if Shows(r, e, h, hash, txs[n - 1]) then 1 else 0
  {
    hide Shows;
    var before := ShownIn(r, e, h, hash, txs, i, n - 1);
    assert ShownIn(r, e, h, hash, txs, i, n)
           == if Shows(r, e, h, hash, txs[n - 1]) then before + {(i, n - 1)} else before;
  }

  lemma OneMoreRow(r: BalanceRow, rows: seq<BalanceRow>, n: nat)
    requires 0 < n <= |rows|
    ensures multiset(rows[..n])[r] == multiset(rows[..n - 1])[r] + if rows[n - 1] == r then 1 else 0
  {
    assert rows[..n] == rows[..n - 1] + [rows[n - 1]];
  }

  lemma {:induction false} CountInLog(r: BalanceRow, e: nat, h: nat, hash: Str, txs: seq<Transfer>, i: nat, n: nat)
    requires n <= |txs|
    ensures multiset(TransferRows(e, h, hash, txs)[..n])[r] == |ShownIn(r, e, h, hash, txs, i, n)|
  {
    if n > 0 {
      CountInLog(r, e, h, hash, txs, i, n - 1);
      OneMoreRow(r, TransferRows(e, h, hash, txs), n);
      OneMoreShown(r, e, h, hash, txs, i, n);
      hide ShownIn;
    }
  }

  lemma ShownTogether(r: BalanceRow, logs: seq<(Str, seq<Transfer>)>, e: nat, h: nat, n: nat)
    requires 0 < n <= |logs|
    ensures |Shown(r, logs, e, h, n)|
            == |Shown(r, logs, e, h, n - 1)|
               + |ShownIn(r, e, h, logs[n - 1].0, logs[n - 1].1, n - 1, |logs[n - 1].1|)|
  {
    hide Shows;
    var before := Shown(r, logs, e, h, n - 1);
    var added := ShownIn(r, e, h, logs[n - 1].0, logs[n - 1].1, n - 1, |logs[n - 1].1|);
    assert Shown(r, logs, e, h, n) == before + added && before !! added;
  }

  lemma RowsTogether(r: BalanceRow, logs: seq<(Str, seq<Transfer>)>, e: nat, h: nat, n: nat)
    requires 0 < n <= |logs|
    ensures var own := TransferRows(e, h, logs[n - 1].0, logs[n - 1].1);
            multiset(LoggedRows(logs, e, h, n))[r]
            == multiset(LoggedRows(logs, e, h, n - 1))[r] + multiset(own[..|logs[n - 1].1|])[r]
  {
    hide TransferRows;
    var own := TransferRows(e, h, logs[n - 1].0, logs[n - 1].1);
    assert own[..|logs[n - 1].1|] == own;
  }

  lemma NothingShown(r: BalanceRow, logs: seq<(Str, seq<Transfer>)>, e: nat, h: nat)
    ensures multiset(LoggedRows(logs, e, h, 0))[r] == 0 && Shown(r, logs, e, h, 0) == {}
  {}

  lemma {:induction false} CountInLogs(r: BalanceRow, logs: seq<(Str, seq<Transfer>)>, e: nat, h: nat, n: nat)
    requires n <= |logs|
    ensures multiset(LoggedRows(logs, e, h, n))[r] == |Shown(r, logs, e, h, n)|
  {
    hide *;
    if n == 0 {
      NothingShown(r, logs, e, h);
    } else {
      CountInLogs(r, logs, e, h, n - 1);
      CountInLog(r, e, h, logs[n - 1].0, logs[n - 1].1, n - 1, |logs[n - 1].1|);
      ShownTogether(r, logs, e, h, n);
      RowsTogether(r, logs, e, h, n);
    }
  }

  /** All transfers of a block are recorded when every row is there as often as a logged transfer has its columns. */
  lemma RecordedByColumn(rows: seq<BalanceRow>, logs: seq<(Str, seq<Transfer>)>, e: nat, h: nat)
    ensures AllRecorded(rows, logs, e, h) <==> forall r :: multiset(rows)[r] == |Shown(r, logs, e, h, |logs|)|
  {
    var all := LoggedRows(logs, e, h, |logs|);
    hide LoggedRows, Shown;
    forall r ensures multiset(all)[r] == |Shown(r, logs, e, h, |logs|)| { CountInLogs(r, logs, e, h, |logs|); }
  }

  /** The genesis rows pay every address of the genesis map its amount, from nowhere, before epoch 1. */
  lemma GenesisPays(rows: seq<BalanceRow>, genesis: map<Str, int>, a: Str)
    requires GenesisRows(rows, genesis, genesis.Keys)
    ensures SumSet(PaysTo(rows, 0, a), AmountAt(rows)) == if a in genesis then genesis[a] else 0
    ensures forall i :: 0 <= i < |rows| ==> rows[i].epoch == rows[i].height == 0 && rows[i].from == []
  {
    var to := PaysTo(rows, 0, a);
    if a in genesis {
      var i :| 0 <= i < |rows| && rows[i] == GenesisRow(a, genesis[a]);
      assert to == {i};
      SumSetAdd<nat>({}, AmountAt(rows), i);
    } else {
      assert to == {};
    }
  }
}
