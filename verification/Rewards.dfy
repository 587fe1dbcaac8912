/** Reward history and the account reward table (indexprotocol/rewards/protocol.go). */
module Rewards {
  import opened Bytes
  import opened Wrappers
  import opened Schema
  import opened Sql
  import opened EpochContext
  import opened Store
  import opened Ranking
  import opened RewardSplit
  import opened DelegateName
  import opened Paging
  import opened RewardNames
  import Blocks

  /** SELECT reward_address, SUM(<kind>) .. GROUP BY reward_address. */
  function RewardSums(kind: RewardKind): Query<RewardRow> {
    Query((r: RewardRow) => r.epoch, (r: RewardRow) => r.rewardAddress, (r: RewardRow) => KindOf(kind, r.reward))
  }

  /* ---------- reward logs ---------- */

  /** Sum of one kind of reward granted to an address over the first n logs. */
  function LogsTotalTo(logs: seq<RewardLog>, kind: RewardKind, addr: Str, n: nat): int
    requires n <= |logs|
  {
    if n == 0 then 0
    else
      var l := logs[n - 1];
      LogsTotalTo(logs, kind, addr, n - 1) + if l.Granted? && l.kind == kind && l.addr == addr then l.amount else 0
  }

  /** The same over the receipts of the block's grant-reward actions. */
  function ReceiptsTotalTo(blk: Block, kind: RewardKind, addr: Str, n: nat): int
    requires n <= |blk.receipts|
  {
    if n == 0 then 0
    else
      var r := blk.receipts[n - 1];
      ReceiptsTotalTo(blk, kind, addr, n - 1)
      + if r.actionHash in blk.grantRewards then LogsTotalTo(r.logs, kind, addr, |r.logs|) else 0
  }

  function BlockTotal(blk: Block, kind: RewardKind, addr: Str): int {
    ReceiptsTotalTo(blk, kind, addr, |blk.receipts|)
  }

  function Plus(r: Reward, kind: RewardKind, amount: int): Reward {
    match kind
    case BlockReward => r.(blockReward := r.blockReward + amount)
    case EpochReward => r.(epochReward := r.epochReward + amount)
    case FoundationBonus => r.(foundationBonus := r.foundationBonus + amount)
  }

  /** Where the first n logs grant rewards of a kind to an address. */
  function LogsTo(logs: seq<RewardLog>, kind: RewardKind, addr: Str, n: nat): set<nat>
    requires n <= |logs|
  {
    set j: nat | j < n && logs[j].Granted? && logs[j].kind == kind && logs[j].addr == addr
  }

  function LogAmount(logs: seq<RewardLog>): nat -> int {
    (j: nat) => if j < |logs| && logs[j].Granted? then logs[j].amount else 0
  }

  lemma {:induction false} LogsAddUp(logs: seq<RewardLog>, kind: RewardKind, addr: Str, n: nat)
    requires n <= |logs|
    ensures LogsTotalTo(logs, kind, addr, n) == SumSet(LogsTo(logs, kind, addr, n), LogAmount(logs))
  {
    if n > 0 {
      LogsAddUp(logs, kind, addr, n - 1);
      var l, before := logs[n - 1], LogsTo(logs, kind, addr, n - 1);
      if l.Granted? && l.kind == kind && l.addr == addr {
        assert LogsTo(logs, kind, addr, n) == before + {n - 1};
        SumSetAdd<nat>(before, LogAmount(logs), n - 1);
      } else {
        assert LogsTo(logs, kind, addr, n) == before;
      }
    }
  }

  /** What the logs of a receipt grant to an address, of each kind. */
  ghost function LoggedReward(logs: seq<RewardLog>, addr: Str): Reward {
    Reward(SumSet(LogsTo(logs, BlockReward, addr, |logs|), LogAmount(logs)),
           SumSet(LogsTo(logs, EpochReward, addr, |logs|), LogAmount(logs)),
           SumSet(LogsTo(logs, FoundationBonus, addr, |logs|), LogAmount(logs)))
  }

  lemma InfoIsLogged(info: map<Str, Reward>, logs: seq<RewardLog>, addr: Str)
    requires addr in info
    requires forall kind :: KindIn(info, kind)(addr) == LogsTotalTo(logs, kind, addr, |logs|)
    ensures info[addr] == LoggedReward(logs, addr)
  {
    LogsAddUp(logs, BlockReward, addr, |logs|);
    LogsAddUp(logs, EpochReward, addr, |logs|);
    LogsAddUp(logs, FoundationBonus, addr, |logs|);
    hide SumSet, LogsTo, LogsTotalTo;
    assert KindIn(info, BlockReward)(addr) == info[addr].blockReward;
    assert KindIn(info, EpochReward)(addr) == info[addr].epochReward;
    assert KindIn(info, FoundationBonus)(addr) == info[addr].foundationBonus;
  }

  /** The addresses that the first n logs grant rewards to. */
  function LoggedTo(logs: seq<RewardLog>, n: nat): set<Str>
    requires n <= |logs|
  {
    set i | 0 <= i < n && logs[i].Granted? :: logs[i].addr
  }

  function GrantedTo(blk: Block, n: nat): set<Str>
    requires n <= |blk.receipts|
  {
    if n == 0 then {}
    else
      var r := blk.receipts[n - 1];
      GrantedTo(blk, n - 1) + if r.actionHash in blk.grantRewards then LoggedTo(r.logs, |r.logs|) else {}
  }

  /** The addresses that a block grants rewards to. */
  function GrantedIn(blk: Block): set<Str> {
    GrantedTo(blk, |blk.receipts|)
  }

  /** getRewardInfoFromReceipt: adds up the logs by address and kind. */
  method GetRewardInfoFromReceipt(receipt: Receipt) returns (r: Result<map<Str, Reward>>)
    ensures r.Failure? <==> Malformed in receipt.logs
    ensures r.Success?
            ==> forall kind, addr ::
              KindIn(r.value, kind)(addr) == LogsTotalTo(receipt.logs, kind, addr, |receipt.logs|)
    ensures r.Success? ==> r.value.Keys == LoggedTo(receipt.logs, |receipt.logs|)
    ensures r.Success? ==> forall addr :: addr in r.value ==> r.value[addr] == LoggedReward(receipt.logs, addr)
  {
    hide LoggedReward;
    var info: map<Str, Reward> := map[];
    for i := 0 to |receipt.logs|
      invariant forall j :: 0 <= j < i ==> receipt.logs[j].Granted?
      invariant forall kind, addr :: KindIn(info, kind)(addr) == LogsTotalTo(receipt.logs, kind, addr, i)
      invariant info.Keys == LoggedTo(receipt.logs, i)
    {
      match receipt.logs[i] {
        case Malformed => return Failure(MalformedLog);
        case Granted(kind, addr, amount) =>
          var rewards := if addr in info then info[addr] else Reward(0, 0, 0);
          info := info[addr := Plus(rewards, kind, amount)];
      }
    }
    forall addr | addr in info ensures info[addr] == LoggedReward(receipt.logs, addr) {
      InfoIsLogged(info, receipt.logs, addr);
    }
    return Success(info);
  }

  /** Sum of one kind of reward of an address in an epoch, over the rows of reward_history. */
  function HistoryTotal(rows: seq<RewardRow>, e: nat, kind: RewardKind, addr: Str): int {
    Total(rows, RewardSums(kind), e, addr)
  }

  /** The addresses with a row in an epoch. */
  function AddressesOf(rows: seq<RewardRow>, e: nat): set<Str> {
    Keys(rows, RewardSums(BlockReward), e)
  }

  /** The row holds what receipt k of a block grants to its address, with the hash of the receipt's action. */
  ghost predicate WrittenFor(row: RewardRow, blk: Block, k: nat) {
    && k < |blk.receipts| && blk.receipts[k].actionHash in blk.grantRewards
    && row.actionHash == blk.receipts[k].actionHash
    && row.rewardAddress in LoggedTo(blk.receipts[k].logs, |blk.receipts[k].logs|)
    && row.reward == LoggedReward(blk.receipts[k].logs, row.rewardAddress)
  }

  ghost predicate WrittenWithin(row: RewardRow, blk: Block, n: nat) {
    exists k: nat :: k < n && WrittenFor(row, blk, k)
  }

  /** The rows appended for the first n receipts of a block: each is written for one of them, they have the addresses of
      the logs, and by address and kind they add up to the logs. */
  ghost predicate GrantedRows(rows: seq<RewardRow>, e: nat, blk: Block, n: nat)
    requires n <= |blk.receipts|
  {
    && (forall i :: 0 <= i < |rows| ==> rows[i].epoch == e && WrittenWithin(rows[i], blk, n))
    && AddressesOf(rows, e) == GrantedTo(blk, n)
    && (forall kind, addr :: HistoryTotal(rows, e, kind, addr) == ReceiptsTotalTo(blk, kind, addr, n))
  }

  function AmountIn(info: map<Str, Reward>, done: set<Str>, kind: RewardKind, addr: Str): int {
    if addr in done then KindIn(info, kind)(addr) else 0
  }

  /** One row for each address of the map that is done, with the hash of the action. */
  ghost predicate InfoRows(rows: seq<RewardRow>, e: nat, hash: Str, info: map<Str, Reward>, done: set<Str>) {
    && (forall i, j :: 0 <= i < j < |rows| ==> rows[i].rewardAddress != rows[j].rewardAddress)
    && (forall i ::
          0 <= i < |rows| ==> rows[i].epoch == e && rows[i].actionHash == hash && rows[i].rewardAddress in info
                                        && rows[i].reward == info[rows[i].rewardAddress])
    && AddressesOf(rows, e) == done
    && (forall kind, addr :: HistoryTotal(rows, e, kind, addr) == AmountIn(info, done, kind, addr))
  }

  lemma OneMoreInfoRow(rows: seq<RewardRow>, e: nat, hash: Str, info: map<Str, Reward>, done: set<Str>, row: RewardRow)
    requires InfoRows(rows, e, hash, info, done)
    requires row.epoch == e && row.actionHash == hash && row.rewardAddress in info && row.rewardAddress !in done
    requires row.reward == info[row.rewardAddress]
    ensures InfoRows(rows + [row], e, hash, info, done + {row.rewardAddress})
  {
    assert forall i :: 0 <= i < |rows| ==> rows[i].rewardAddress in AddressesOf(rows, e);
    KeysOfAppended(rows, row, RewardSums(BlockReward), e);
    forall kind, addr
      ensures HistoryTotal(rows + [row], e, kind, addr) == AmountIn(info, done + {row.rewardAddress}, kind, addr)
    {
      assert HistoryTotal(rows, e, kind, addr) == AmountIn(info, done, kind, addr);
      TotalOfPrefix(rows, [row], RewardSums(kind), e, addr, |rows|);
    }
  }

  lemma RowsAreWritten(rows: seq<RewardRow>, added: seq<RewardRow>, e: nat, blk: Block, n: nat, info: map<Str, Reward>)
    requires n < |blk.receipts| && GrantedRows(rows, e, blk, n) && blk.receipts[n].actionHash in blk.grantRewards
    requires InfoRows(added, e, blk.receipts[n].actionHash, info, info.Keys)
    requires info.Keys == LoggedTo(blk.receipts[n].logs, |blk.receipts[n].logs|)
    requires forall addr :: addr in info ==> info[addr] == LoggedReward(blk.receipts[n].logs, addr)
    ensures var all := rows + added;
            forall i :: 0 <= i < |all| ==> all[i].epoch == e && WrittenWithin(all[i], blk, n + 1)
  {
    hide LoggedReward, LoggedTo, HistoryTotal, AddressesOf;
    var all := rows + added;
    forall i | 0 <= i < |all| ensures all[i].epoch == e && WrittenWithin(all[i], blk, n + 1) {
      if i < |rows| {
        var k: nat :| k < n && WrittenFor(rows[i], blk, k);
        assert WrittenFor(all[i], blk, k);
      } else {
        assert all[i] == added[i - |rows|];
        assert WrittenFor(all[i], blk, n);
      }
    }
  }

  lemma AddressesTogether(rows: seq<RewardRow>, added: seq<RewardRow>, e: nat)
    ensures AddressesOf(rows + added, e) == AddressesOf(rows, e) + AddressesOf(added, e)
  {
    KeysConcat(rows, added, RewardSums(BlockReward), e);
  }

  lemma TotalsOfReceipt(rows: seq<RewardRow>, added: seq<RewardRow>, e: nat, blk: Block, n: nat, info: map<Str, Reward>,
                        kind: RewardKind, addr: Str)
    requires n < |blk.receipts| && blk.receipts[n].actionHash in blk.grantRewards
    requires HistoryTotal(rows, e, kind, addr) == ReceiptsTotalTo(blk, kind, addr, n)
    requires HistoryTotal(added, e, kind, addr) == AmountIn(info, info.Keys, kind, addr)
    requires KindIn(info, kind)(addr) == LogsTotalTo(blk.receipts[n].logs, kind, addr, |blk.receipts[n].logs|)
    ensures HistoryTotal(rows + added, e, kind, addr) == ReceiptsTotalTo(blk, kind, addr, n + 1)
  {
    TotalConcat(rows, added, RewardSums(kind), e, addr, |added|);
  }

  lemma OneMoreReceipt(rows: seq<RewardRow>, added: seq<RewardRow>, e: nat, blk: Block, n: nat, info: map<Str, Reward>)
    requires n < |blk.receipts| && GrantedRows(rows, e, blk, n) && blk.receipts[n].actionHash in blk.grantRewards
    requires InfoRows(added, e, blk.receipts[n].actionHash, info, info.Keys)
    requires info.Keys == LoggedTo(blk.receipts[n].logs, |blk.receipts[n].logs|)
    requires forall addr :: addr in info ==> info[addr] == LoggedReward(blk.receipts[n].logs, addr)
    requires forall kind, addr ::
               KindIn(info, kind)(addr) == LogsTotalTo(blk.receipts[n].logs, kind, addr, |blk.receipts[n].logs|)
    ensures GrantedRows(rows + added, e, blk, n + 1)
  {
    RowsAreWritten(rows, added, e, blk, n, info);
    hide LoggedReward, LoggedTo, WrittenWithin, HistoryTotal, ReceiptsTotalTo, AddressesOf, AmountIn, LogsTotalTo,
         KindIn;
    AddressesTogether(rows, added, e);
    forall kind, addr
      ensures HistoryTotal(rows + added, e, kind, addr) == ReceiptsTotalTo(blk, kind, addr, n + 1)
    {
      TotalsOfReceipt(rows, added, e, blk, n, info, kind, addr);
    }
  }

  /* ---------- closing an epoch ---------- */

  /** What rebuildAccountRewardTable reads for the epoch it closes: the voting result, the reward history and,
      outside the open transaction, the committed block history. */
  datatype Closing = Closing(cfg: Config, epoch: nat, voting: seq<VotingRow>, history: seq<RewardRow>,
                             blocks: seq<BlockRow>)
  {
    /** Candidates of an address among the first n voting rows, in their order. */
    function CandidatesTo(addr: Str, n: nat): seq<Str>
      requires n <= |voting|
    {
      if n == 0 then []
      else
        var v := voting[n - 1];
        CandidatesTo(addr, n - 1) + if v.epoch == epoch && v.rewardAddress == addr then [v.delegateName] else []
    }

    function Candidates(addr: Str): seq<Str> {
      CandidatesTo(addr, |voting|)
    }

    /** Total weighted votes by candidate over the first n voting rows. */
    function VotesTo(n: nat): map<Str, int>
      requires n <= |voting|
    {
      if n == 0 then map[]
      else
        var v := voting[n - 1];
        if v.epoch == epoch then VotesTo(n - 1)[v.delegateName := v.totalWeightedVotes] else VotesTo(n - 1)
    }

    function Votes(): map<Str, int> {
      VotesTo(|voting|)
    }

    /** The production of the epoch by expected producer. */
    function Production(): map<Str, Productivity> {
      map n | n in Keys(blocks, Blocks.EXPECTED, epoch) :: Blocks.Recounted(blocks, epoch, n)
    }

    /** The reward addresses of the epoch. */
    function Addresses(): set<Str> {
      AddressesOf(history, epoch)
    }

    /** An address's rewards of the epoch. */
    function TotalOf(addr: Str): Reward {
      Reward(Total(history, RewardSums(BlockReward), epoch, addr),
             Total(history, RewardSums(EpochReward), epoch, addr),
             Total(history, RewardSums(FoundationBonus), epoch, addr))
    }

    function SplitOf(addr: Str, ranking: seq<Str>): Split {
      Split(cfg, Candidates(addr), Ranks(ranking), Votes(), Production(), TotalOf(addr))
    }

    /** What the candidates of an address are credited with: everything if there is one, else the split. */
    function PayOf(addr: Str, ranking: seq<Str>): map<Str, Reward>
      requires Counted(Production())
    {
      if |Candidates(addr)| == 1 then map[Candidates(addr)[0] := TotalOf(addr)] else SplitOf(addr, ranking).Rewards()
    }

    /** No two voting rows share epoch and candidate: the unique index of voting_result. */
    ghost predicate UniqueNames() {
      forall i, j :: 0 <= i < j < |voting| && voting[i].epoch == voting[j].epoch
                     ==> voting[i].delegateName != voting[j].delegateName
    }
  }

  /** A ranking for every address. Each call sorts anew, so ties may be broken differently each time. */
  type Rankings = map<Str, seq<Str>>

  ghost predicate RanksAll(c: Closing, rankings: Rankings, addresses: set<Str>) {
    forall a :: a in addresses ==> a in rankings && (|c.Candidates(a)| != 1 ==> IsRanking(rankings[a], c.Votes()))
  }

  lemma ProductionCounted(c: Closing)
    ensures Counted(c.Production())
  {
    forall n | n in Keys(c.blocks, Blocks.EXPECTED, c.epoch)
      ensures Blocks.Recounted(c.blocks, c.epoch, n).production >= 0
      ensures Blocks.Recounted(c.blocks, c.epoch, n).expected >= 1
    {
      CountsPositive(c.blocks, c.epoch, n, |c.blocks|);
    }
  }

  /** GROUP BY with COUNT never yields a group of none. */
  lemma {:induction false} CountsPositive(rows: seq<BlockRow>, e: nat, name: Str, n: nat)
    requires n <= |rows|
    ensures TotalTo(rows, Blocks.PRODUCED, e, name, n) >= 0
    ensures TotalTo(rows, Blocks.EXPECTED, e, name, n) >= if name in KeysTo(rows, Blocks.EXPECTED, e, n) then 1 else 0
  {
    if n > 0 {
      KeysStep(rows, Blocks.EXPECTED, e, n - 1);
      CountsPositive(rows, e, name, n - 1);
    }
  }

  /* ---------- which candidates an address has ---------- */

  lemma {:induction false} CandidatesAre(c: Closing, addr: Str, n: nat)
    requires n <= |c.voting| && c.UniqueNames()
    ensures forall x :: x in c.CandidatesTo(addr, n)
              <==> exists i ::
                0 <= i < n && c.voting[i].epoch == c.epoch && c.voting[i].rewardAddress == addr
                  && c.voting[i].delegateName == x
    ensures forall i, j ::
              0 <= i < j < |c.CandidatesTo(addr, n)| ==> c.CandidatesTo(addr, n)[i] != c.CandidatesTo(addr, n)[j]
  {
    if n > 0 {
      CandidatesAre(c, addr, n - 1);
      var v, before := c.voting[n - 1], c.CandidatesTo(addr, n - 1);
      if v.epoch == c.epoch && v.rewardAddress == addr {
        assert v.delegateName !in before;
        assert c.CandidatesTo(addr, n) == before + [v.delegateName];
      }
    }
  }

  lemma {:induction false} VotesAre(c: Closing, n: nat)
    requires n <= |c.voting| && c.UniqueNames()
    ensures forall i :: 0 <= i < n && c.voting[i].epoch == c.epoch
              ==> c.voting[i].delegateName in c.VotesTo(n)
                  && c.VotesTo(n)[c.voting[i].delegateName] == c.voting[i].totalWeightedVotes
  {
    if n > 0 { VotesAre(c, n - 1); }
  }

  /* ---------- what is credited ---------- */

  /** What each address in `done` credits. */
  function Pays(c: Closing, rankings: Rankings, done: set<Str>): map<Str, map<Str, Reward>>
    requires Counted(c.Production()) && done <= rankings.Keys
  {
    map a | a in done :: c.PayOf(a, rankings[a])
  }

  /** All entries of the parts, and nothing else. */
  ghost predicate UnionOf(m: map<Str, Reward>, parts: map<Str, map<Str, Reward>>) {
    && (forall a, x :: a in parts && x in parts[a] ==> x in m && m[x] == parts[a][x])
    && (forall x :: x in m ==> exists a :: a in parts && x in parts[a])
  }

  /** The credits of all addresses in `done`, and nothing else. */
  ghost predicate Credits(m: map<Str, Reward>, c: Closing, rankings: Rankings, done: set<Str>)
    requires Counted(c.Production()) && done <= rankings.Keys
  {
    UnionOf(m, Pays(c, rankings, done))
  }

  lemma UnionOneMore(m: map<Str, Reward>, parts: map<Str, map<Str, Reward>>, a: Str, part: map<Str, Reward>)
    requires UnionOf(m, parts) && a !in parts && forall b :: b in parts ==> parts[b].Keys !! part.Keys
    ensures m.Keys !! part.Keys && UnionOf(m + part, parts[a := part])
  {
    var all := parts[a := part];
    forall x | x in m + part ensures exists b :: b in all && x in all[b] {
      if x in part {
        assert x in all[a];
      } else {
        var b :| b in parts && x in parts[b];
        assert x in all[b];
      }
    }
  }

  lemma UnionWithout(m: map<Str, Reward>, parts: map<Str, map<Str, Reward>>, a: Str)
    requires UnionOf(m, parts) && a in parts && forall b :: b in parts && b != a ==> parts[b].Keys !! parts[a].Keys
    ensures UnionOf(m - parts[a].Keys, parts - {a})
  {
    var rest, others := m - parts[a].Keys, parts - {a};
    forall x | x in rest ensures exists b :: b in others && x in others[b] {
      var b :| b in parts && x in parts[b];
      assert b in others;
    }
  }

  lemma PaidAreCandidates(c: Closing, a: Str, ranking: seq<Str>, x: Str)
    requires Counted(c.Production()) && x in c.PayOf(a, ranking)
    ensures x in c.Candidates(a)
  {}

  /** A candidate has one reward address, so no two addresses credit the same candidate. */
  lemma DisjointPay(c: Closing, a: Str, b: Str, ra: seq<Str>, rb: seq<Str>)
    requires Counted(c.Production()) && c.UniqueNames() && a != b
    ensures c.PayOf(a, ra).Keys !! c.PayOf(b, rb).Keys
  {
    forall x | x in c.PayOf(a, ra) && x in c.PayOf(b, rb) ensures false {
      hide *;
      PaidAreCandidates(c, a, ra, x);
      PaidAreCandidates(c, b, rb, x);
      CandidateOfOne(c, a, b, x);
    }
  }

  /** A candidate has one reward address in an epoch. */
  lemma CandidateOfOne(c: Closing, a: Str, b: Str, x: Str)
    requires c.UniqueNames() && x in c.Candidates(a) && x in c.Candidates(b)
    ensures a == b
  {
    CandidatesAre(c, a, |c.voting|);
    CandidatesAre(c, b, |c.voting|);
    hide Closing.CandidatesTo;
  }

  lemma CreditOneMore(m: map<Str, Reward>, c: Closing, rankings: Rankings, done: set<Str>, a: Str, ranking: seq<Str>)
    requires Counted(c.Production()) && c.UniqueNames() && done <= rankings.Keys && a !in done
    requires Credits(m, c, rankings, done)
    ensures m.Keys !! c.PayOf(a, ranking).Keys
    ensures Credits(m + c.PayOf(a, ranking), c, rankings[a := ranking], done + {a})
  {
    forall b | b in done ensures c.PayOf(b, rankings[b]).Keys !! c.PayOf(a, ranking).Keys {
      DisjointPay(c, b, a, rankings[b], ranking);
    }
    hide Closing.PayOf, UnionOf;
    UnionOneMore(m, Pays(c, rankings, done), a, c.PayOf(a, ranking));
    assert Pays(c, rankings[a := ranking], done + {a}) == Pays(c, rankings, done)[a := c.PayOf(a, ranking)];
  }

  /* ---------- the rows of an INSERT ---------- */

  /** The rows list the map: each entry once, in some order. */
  ghost predicate ListsRows(vals: seq<(Str, Reward)>, m: map<Str, Reward>) {
    && (forall i :: 0 <= i < |vals| ==> vals[i].0 in m && m[vals[i].0] == vals[i].1)
    && (forall x :: x in m ==> exists i :: 0 <= i < |vals| && vals[i].0 == x)
    && (forall i, j :: 0 <= i < j < |vals| ==> vals[i].0 != vals[j].0)
  }

  lemma ListsTogether(vals: seq<(Str, Reward)>, m: map<Str, Reward>, more: seq<(Str, Reward)>, m': map<Str, Reward>)
    requires ListsRows(vals, m) && ListsRows(more, m') && m.Keys !! m'.Keys
    ensures ListsRows(vals + more, m + m')
  {
    var all := vals + more;
    forall x | x in m + m' ensures exists i :: 0 <= i < |all| && all[i].0 == x {
      if x in m {
        var i :| 0 <= i < |vals| && vals[i].0 == x;
        assert all[i].0 == x;
      } else {
        var i :| 0 <= i < |more| && more[i].0 == x;
        assert all[|vals| + i].0 == x;
      }
    }
    forall i, j | 0 <= i < j < |all| ensures all[i].0 != all[j].0 {
      if i < |vals| <= j {
        assert all[i].0 in m && more[j - |vals|].0 in m';
      }
    }
  }

  /** Lists a map in whatever order it is visited. */
  method ListEntries(m: map<Str, Reward>) returns (vals: seq<(Str, Reward)>)
    ensures ListsRows(vals, m)
  {
    vals := [];
    var rest := m.Keys;
    while rest != {}
      invariant rest <= m.Keys
      invariant forall i :: 0 <= i < |vals| ==> vals[i].0 in m && vals[i].0 !in rest && m[vals[i].0] == vals[i].1
      invariant forall x :: x in m && x !in rest ==> exists i :: 0 <= i < |vals| && vals[i].0 == x
      invariant forall i, j :: 0 <= i < j < |vals| ==> vals[i].0 != vals[j].0
      decreases rest
    {
      var x :| x in rest;
      rest := rest - {x};
      ghost var before := vals;
      vals := vals + [(x, m[x])];
      forall y | y in m && y !in rest ensures exists i :: 0 <= i < |vals| && vals[i].0 == y {
        if y == x {
          assert vals[|before|].0 == y;
        } else {
          var i :| 0 <= i < |before| && before[i].0 == y;
          assert vals[i].0 == y;
        }
      }
    }
  }

  /** INSERT IGNORE of the rows one after the other. */
  method InsertRewards(t: map<(nat, Str), Reward>, e: nat, vals: seq<(Str, Reward)>, ghost m: map<Str, Reward>)
    returns (t': map<(nat, Str), Reward>)
    requires ListsRows(vals, m)
    ensures t' == InsertIgnore(t, e, m)
  {
    t' := t;
    for i := 0 to |vals|
      invariant forall p :: p in t' <==> p in t || (p.0 == e && exists j :: 0 <= j < i && vals[j].0 == p.1)
      invariant forall p :: p in t' ==> t'[p] == if p in t then t[p] else m[p.1]
    {
      if (e, vals[i].0) !in t' { t' := t'[(e, vals[i].0) := vals[i].1]; }
    }
  }

  /* ---------- the handler ---------- */

  ghost predicate NamesUpTo(c: Closing, names: map<Str, seq<Str>>, n: nat)
    requires n <= |c.voting|
  {
    forall a :: c.CandidatesTo(a, n) == NamesAtAddress(names, a)
  }

  lemma NoCandidates(c: Closing)
    ensures NamesUpTo(c, map[], 0)
  {}

  lemma AllCandidates(c: Closing, names: map<Str, seq<Str>>, votes: map<Str, int>)
    requires NamesUpTo(c, names, |c.voting|) && votes == c.Votes()
    ensures forall a :: c.Candidates(a) == NamesAtAddress(names, a)
    ensures HasVotes(c) <==> votes != map[]
  {}

  lemma NextCandidate(c: Closing, names: map<Str, seq<Str>>, n: nat)
    requires n < |c.voting| && NamesUpTo(c, names, n)
    ensures var v := c.voting[n];
            NamesUpTo(c, if v.epoch == c.epoch
                      then names[v.rewardAddress := NamesAtAddress(names, v.rewardAddress) + [v.delegateName]]
                         else names, n + 1)
  {}

  /** The credits of all addresses of the epoch that is closed, if it has any. */
  ghost predicate CreditsAll(c: Closing, rankings: Rankings, m: map<Str, Reward>) {
    c.epoch > 0 && c.Addresses() != {} ==>
      && Counted(c.Production()) && c.Addresses() <= rankings.Keys
      && RanksAll(c, rankings, c.Addresses()) && Credits(m, c, rankings, c.Addresses())
  }

  function AfterClosing(c: Closing, t: RewardsTables, m: map<Str, Reward>): RewardsTables {
    if c.epoch == 0 || c.Addresses() == {} then t else t.(account := InsertIgnore(t.account, c.epoch, m))
  }

  lemma ClosingKeepsHistory(c: Closing, t: RewardsTables, m: map<Str, Reward>)
    ensures AfterClosing(c, t, m).history == t.history
  {}

  /** The addresses in `done` have been paid: the rows list their credits, none twice. */
  ghost predicate PaidFor(c: Closing, done: set<Str>, vals: seq<(Str, Reward)>, rankings: Rankings, m: map<Str, Reward>)
  {
    && Counted(c.Production()) && done <= rankings.Keys
    && RanksAll(c, rankings, done) && Credits(m, c, rankings, done) && ListsRows(vals, m)
    && (c.Production() == map[] ==> forall a :: a in done ==> |c.Candidates(a)| == 1)
  }

  lemma PaidOneMore(c: Closing, done: set<Str>, vals: seq<(Str, Reward)>, rankings: Rankings, m: map<Str, Reward>,
                    a: Str, more: seq<(Str, Reward)>, ranking: seq<Str>)
    requires PaidFor(c, done, vals, rankings, m) && c.UniqueNames() && a !in done
    requires |c.Candidates(a)| != 1 ==> IsRanking(ranking, c.Votes()) && c.Production() != map[]
    requires Counted(c.Production()) && ListsRows(more, c.PayOf(a, ranking))
    ensures PaidFor(c, done + {a}, vals + more, rankings[a := ranking], m + c.PayOf(a, ranking))
  {
    hide Closing.PayOf, Closing.Production, Credits, ListsRows, IsRanking;
    CreditOneMore(m, c, rankings, done, a, ranking);
    ListsTogether(vals, m, more, c.PayOf(a, ranking));
  }

  /** Some address of the epoch needs a split: it is shared, or has no candidate at all. */
  ghost predicate NeedsSplit(c: Closing) {
    exists a :: a in c.Addresses() && |c.Candidates(a)| != 1
  }

  ghost predicate HasVotes(c: Closing) {
    c.Votes() != map[]
  }

  lemma PaidNone(c: Closing)
    ensures PaidFor(c, {}, [], map[], map[])
  {
    ProductionCounted(c);
  }

  lemma PaidIsCredited(c: Closing, vals: seq<(Str, Reward)>, rankings: Rankings, m: map<Str, Reward>)
    requires PaidFor(c, c.Addresses(), vals, rankings, m)
    ensures CreditsAll(c, rankings, m) && ListsRows(vals, m)
  {
    hide Credits, ListsRows, Counted;
  }

  /** No address credits anybody: none has a sole candidate, and every split gives nothing. */
  ghost predicate CreditsNothing(c: Closing, rankings: Rankings) {
    && Counted(c.Production()) && c.Addresses() <= rankings.Keys && RanksAll(c, rankings, c.Addresses())
    && forall a :: a in c.Addresses() ==> |c.Candidates(a)| != 1 && GivesNothing(c.SplitOf(a, rankings[a]))
  }

  lemma PaysNothingIff(c: Closing, a: Str, ranking: seq<Str>)
    requires Counted(c.Production())
    ensures c.PayOf(a, ranking) == map[] <==> |c.Candidates(a)| != 1 && GivesNothing(c.SplitOf(a, ranking))
  {
    GivesNothingIff(c.SplitOf(a, ranking));
    hide Closing.Candidates, Closing.TotalOf, Closing.Votes, Closing.Production, GivesNothing, Split.Rewards;
    if |c.Candidates(a)| == 1 { assert c.Candidates(a)[0] in c.PayOf(a, ranking); }
  }

  lemma CreditsNothingIff(c: Closing, rankings: Rankings, m: map<Str, Reward>)
    requires c.epoch > 0 && c.Addresses() != {} && CreditsAll(c, rankings, m)
    ensures m == map[] <==> CreditsNothing(c, rankings)
  {
    var parts := Pays(c, rankings, c.Addresses());
    forall a | a in c.Addresses()
      ensures a in parts && (parts[a] == map[] <==> |c.Candidates(a)| != 1 && GivesNothing(c.SplitOf(a, rankings[a])))
    {
      PaysNothingIff(c, a, rankings[a]);
    }
    hide Closing.PayOf, Closing.Production, Closing.Addresses, Closing.Candidates, Closing.SplitOf, GivesNothing;
    EmptyUnionIff(m, parts);
  }

  lemma PartOfUnion(m: map<Str, Reward>, parts: map<Str, map<Str, Reward>>, a: Str, x: Str)
    requires UnionOf(m, parts) && a in parts && x in parts[a]
    ensures x in m
  {}

  lemma EmptyUnionIff(m: map<Str, Reward>, parts: map<Str, map<Str, Reward>>)
    requires UnionOf(m, parts)
    ensures m == map[] <==> forall a :: a in parts ==> parts[a] == map[]
  {
    if m == map[] {
      forall a | a in parts ensures parts[a] == map[] {
        if x :| x in parts[a] { PartOfUnion(m, parts, a, x); }
      }
    }
  }

  lemma NothingToSplit(c: Closing)
    requires c.Addresses() == {}
    ensures !NeedsSplit(c)
  {}

  lemma NothingListedIff(vals: seq<(Str, Reward)>, m: map<Str, Reward>)
    requires ListsRows(vals, m)
    ensures vals == [] <==> m == map[]
  {
    if vals != [] { assert vals[0].0 in m; }
  }

  lemma SplitNeeded(c: Closing, a: Str)
    requires a in c.Addresses() && |c.Candidates(a)| != 1
    ensures NeedsSplit(c)
  {}

  lemma NoSplitMissed(c: Closing, vals: seq<(Str, Reward)>, rankings: Rankings, m: map<Str, Reward>)
    requires PaidFor(c, c.Addresses(), vals, rankings, m)
    ensures !(NeedsSplit(c) && c.Production() == map[])
  {}

  /** The address has no sole candidate, and some ranking of the votes makes its split give nothing. */
  ghost predicate MayCreditNobody(c: Closing, a: Str) {
    && |c.Candidates(a)| != 1 && Counted(c.Production())
    && exists ranking :: IsRanking(ranking, c.Votes()) && GivesNothing(c.SplitOf(a, ranking))
  }

  /** Closing the epoch fails, given how each address broke ties: it has no voting rows, a split needs production
      figures and there are none, or nobody is credited, so that the INSERT has no rows. */
  ghost predicate ClosingFails(c: Closing, rankings: Rankings) {
    c.epoch > 0 && (!HasVotes(c) || (NeedsSplit(c) && c.Production() == map[])
                    || (c.Addresses() != {} && CreditsNothing(c, rankings)))
  }

  ghost predicate Undecodable(blk: Block) {
    exists i ::
      0 <= i < |blk.receipts| && blk.receipts[i].actionHash in blk.grantRewards && Malformed in blk.receipts[i].logs
  }

  /** Why handling a block fails, given the names in memory and how each address broke ties. */
  ghost predicate Fails(p: Place, blk: Block, c: Closing, chain: Chain, names: Names, out: Outage, rankings: Rankings) {
    || (c.cfg.rolldpos && (p.starts || names.None?) && RefreshFails(c.cfg, chain, p, out))
    || (c.cfg.rolldpos && p.starts && ClosingFails(c, rankings))
    || Undecodable(blk)
  }

  class RewardsProtocol {
    const cfg: Config
    var rewardAddrToName: Names

    constructor (cfg: Config)
      ensures this.cfg == cfg && rewardAddrToName == None
    {
      this.cfg := cfg;
      rewardAddrToName := None;
    }

    /** updateStakingCandidateRewardAddress. */
    method UpdateStakingCandidateRewardAddress(chain: Chain, height: nat, out: Outage) returns (outcome: Outcome)
      requires FitsOffsets(|chain.candidates(height)|, READ_CANDIDATES_LIMIT)
      modifies this
      ensures var candidates := Kept(chain.candidates(height), SelfStaked);
              var wanted := StakingNamesTo(candidates, |candidates|);
              && Refreshed(old(rewardAddrToName), wanted, rewardAddrToName, outcome)
              && (outcome.Fail? <==> RewardCandidatesCall in out || wanted.None?)
    {
      if RewardCandidatesCall in out { return Fail(ClientError); }
      var candidateList := GetAllStakingCandidates(chain.candidates(height));
      var names: map<Str, seq<Str>> := map[];
      rewardAddrToName := Some(names);
      for i := 0 to |candidateList|
        invariant rewardAddrToName == Some(names) && StakingNamesTo(candidateList, i) == Some(names)
      {
        var a := candidateList[i].rewardAddress;
        if a !in names { rewardAddrToName := Some(names[a := []]); }
        var encodedDelegateName := EncodeDelegateName(candidateList[i].name);
        if encodedDelegateName.Failure? {
          NamesStayMissing(candidateList, i + 1, |candidateList|);
          return Fail(encodedDelegateName.error);
        }
        names := names[a := NamesAtAddress(names, a) + [encodedDelegateName.value]];
        rewardAddrToName := Some(names);
      }
      return Pass;
    }

    /** updateCandidateRewardAddress. */
    method UpdateCandidateRewardAddress(chain: Chain, place: Place, out: Outage) returns (outcome: Outcome)
      requires FitsOffsets(|chain.candidates(place.prevHeight)|, READ_CANDIDATES_LIMIT)
      modifies this
      ensures Refreshed(old(rewardAddrToName), NamesAtPlace(cfg, chain, place), rewardAddrToName, outcome)
      ensures outcome.Fail? <==> RefreshFails(cfg, chain, place, out)
    {
      if place.staking {
        outcome := UpdateStakingCandidateRewardAddress(chain, place.prevHeight, out);
        return;
      }
      var gravityChainStartHeight := cfg.gravityChainStartHeight;
      if place.epoch != 1 {
        if GravityCall in out { return Fail(ClientError); }
        gravityChainStartHeight := chain.gravityHeight(place.prevHeight);
      }
      if RewardCandidatesCall in out { return Fail(ClientError); }
      var delegates := chain.electionCandidates(gravityChainStartHeight);
      var names: map<Str, seq<Str>> := map[];
      for i := 0 to |delegates|
        invariant names == ElectionNamesTo(delegates, i)
      {
        var a := delegates[i].rewardAddress;
        names := names[a := NamesAtAddress(names, a) + [delegates[i].name]];
      }
      rewardAddrToName := Some(names);
      return Pass;
    }

    /** getVotingInfo: candidates by reward address, and votes by candidate. */
    method GetVotingInfo(ghost c: Closing, voting: seq<VotingRow>, lastEpoch: nat)
      returns (outcome: Outcome, names: map<Str, seq<Str>>, votes: map<Str, int>)
      requires c.voting == voting && c.epoch == lastEpoch
      ensures outcome.Fail? <==> !HasVotes(c)
      ensures outcome.Fail? ==> outcome.error == NotExist
      ensures forall a :: c.Candidates(a) == NamesAtAddress(names, a)
      ensures votes == c.Votes()
    {
      hide NamesUpTo, HasVotes;
      names, votes := map[], map[];
      NoCandidates(c);
      var found := false;
      for i := 0 to |voting|
        invariant found <==> votes != map[]
        invariant NamesUpTo(c, names, i)
        invariant votes == c.VotesTo(i)
      {
        var v := voting[i];
        NextCandidate(c, names, i);
        if v.epoch == lastEpoch {
          found := true;
          names := names[v.rewardAddress := NamesAtAddress(names, v.rewardAddress) + [v.delegateName]];
          votes := votes[v.delegateName := v.totalWeightedVotes];
          assert v.delegateName in votes;
        }
      }
      AllCandidates(c, names, votes);
      outcome := if found then Pass else Fail(NotExist);
    }

    /** getProductivity: reads the committed block history, not the open transaction. */
    method GetProductivity(ghost c: Closing, blocks: seq<BlockRow>, epochNumber: nat)
      returns (outcome: Outcome, prod: map<Str, Productivity>)
      requires c.blocks == blocks && c.epoch == epochNumber
      ensures prod == c.Production() && Counted(prod)
      ensures outcome == if prod == map[] then Fail(NotExist) else Pass
    {
      var expected := GroupBy(blocks, Blocks.EXPECTED, epochNumber);
      var produced := GroupBy(blocks, Blocks.PRODUCED, epochNumber);
      prod := map[];
      var left := expected.Keys;
      while left != {}
        invariant left <= expected.Keys
        invariant prod.Keys == expected.Keys - left
        invariant forall n ::
                    n in prod ==> prod[n] == Productivity(if n in produced then produced[n] else 0, expected[n])
        decreases left
      {
        var n :| n in left;
        left := left - {n};
        prod := prod[n := Productivity(if n in produced then produced[n] else 0, expected[n])];
      }
      forall n | n in prod ensures prod[n] == Blocks.Recounted(blocks, epochNumber, n) {
        if n !in produced { TotalOfNone(blocks, Blocks.PRODUCED, epochNumber, n, |blocks|); }
      }
      assert prod == c.Production();
      ProductionCounted(c);
      outcome := if prod == map[] then Fail(NotExist) else Pass;
    }

    /** breakdownRewards. */
    method BreakdownRewards(ghost c: Closing, blocks: seq<BlockRow>, epochNumber: nat, names: seq<Str>,
                            votes: map<Str, int>, total: Reward)
      returns (outcome: Outcome, rewards: map<Str, Reward>, ghost ranking: seq<Str>)
      requires c.blocks == blocks && c.epoch == epochNumber && c.cfg == cfg
      requires forall i :: 0 <= i < |names| ==> names[i] in votes
      ensures IsRanking(ranking, votes)
      ensures outcome == if c.Production() == map[] then Fail(NotExist) else Pass
      ensures Counted(c.Production())
      ensures outcome.Pass? ==> rewards == Split(cfg, names, Ranks(ranking), votes, c.Production(), total).Rewards()
    {
      hide *;
      var candidateVoteList := SortByVotes(votes);
      ranking := candidateVoteList;
      rewards := map[];
      var candidateRank := AssignRanks(candidateVoteList);
      var prod;
      outcome, prod := GetProductivity(c, blocks, epochNumber);
      if outcome.Pass? {
        rewards := SplitRewards(Split(cfg, names, candidateRank, votes, prod, total));
      }
    }

    method AssignRanks(candidateVoteList: seq<Str>) returns (candidateRank: map<Str, nat>)
      ensures candidateRank == Ranks(candidateVoteList)
    {
      candidateRank := map[];
      for i := 0 to |candidateVoteList|
        invariant candidateRank == RanksTo(candidateVoteList, i)
      {
        candidateRank := candidateRank[candidateVoteList[i] := i + 1];
      }
    }

    /** The first loop of breakdownRewards: who earns what, and the denominators. */
    method Denominators(s: Split) returns (productionSum: int, qualifiedTotalVotes: int, foundationBonusCount: int)
      requires Counted(s.prod) && forall i :: 0 <= i < |s.names| ==> s.names[i] in s.votes
      ensures productionSum == Sum(s.names, s.Weight(BlockReward))
      ensures qualifiedTotalVotes == Sum(s.names, s.Weight(EpochReward))
      ensures foundationBonusCount == Sum(s.names, s.Weight(FoundationBonus))
    {
      productionSum, qualifiedTotalVotes, foundationBonusCount := 0, 0, 0;
      for i := 0 to |s.names|
        invariant productionSum == SumTo(s.names, s.Weight(BlockReward), i)
        invariant qualifiedTotalVotes == SumTo(s.names, s.Weight(EpochReward), i)
        invariant foundationBonusCount == SumTo(s.names, s.Weight(FoundationBonus), i)
      {
        var name := s.names[i];
        var productive := true;
        if name in s.prod {
          productionSum := productionSum + s.prod[name].production;
          if s.prod[name].production * 100 / s.prod[name].expected < s.cfg.productivityThreshold {
            productive := false;
          }
        }
        if RankOf(s.ranks, name) <= s.cfg.numDelegatesForEpochReward && name !in s.cfg.exemptCandidates && productive {
          qualifiedTotalVotes := qualifiedTotalVotes + s.votes[name];
        }
        if RankOf(s.ranks, name) <= s.cfg.numDelegatesForFoundationBonus && name !in s.cfg.exemptCandidates {
          foundationBonusCount := foundationBonusCount + 1;
        }
      }
    }

    /** The body of the second loop of breakdownRewards. No division is by zero. */
    method RewardFor(s: Split, i: nat, productionSum: int, qualifiedTotalVotes: int, foundationBonusCount: int)
      returns (reward: Reward)
      requires Counted(s.prod) && i < |s.names| && s.names[i] in s.votes
      requires productionSum == Sum(s.names, s.Weight(BlockReward))
      requires qualifiedTotalVotes == Sum(s.names, s.Weight(EpochReward))
      requires foundationBonusCount == Sum(s.names, s.Weight(FoundationBonus))
      ensures reward == s.RewardOf(s.names[i])
    {
      var name := s.names[i];
      var blockReward, epochReward, foundationBonus := 0, 0, 0;
      hide Sum, SumTo;
      NoWeightNoShare(s.total.blockReward, productionSum);
      if productionSum > 0 && name in s.prod {
        blockReward := s.total.blockReward * s.prod[name].production / productionSum;
      }
      assert blockReward == s.Paid(BlockReward, name);
      NoWeightNoShare(s.total.epochReward, qualifiedTotalVotes);
      if qualifiedTotalVotes > 0 && EarnsEpochReward(s.cfg, s.ranks, s.prod, name) {
        epochReward := s.total.epochReward * s.votes[name] / qualifiedTotalVotes;
      }
      assert epochReward == s.Paid(EpochReward, name);
      NoWeightNoShare(s.total.foundationBonus, foundationBonusCount);
      if s.total.foundationBonus > 0 && EarnsFoundationBonus(s.cfg, s.ranks, name) {
        BonusCounted(s.names, s.Weight(FoundationBonus), i, |s.names|);
        foundationBonus := s.total.foundationBonus / foundationBonusCount;
      }
      reward := Reward(blockReward, epochReward, foundationBonus);
    }

    /** Both loops: candidates that get nothing are left out. */
    method SplitRewards(s: Split) returns (rewards: map<Str, Reward>)
      requires Counted(s.prod) && forall i :: 0 <= i < |s.names| ==> s.names[i] in s.votes
      ensures rewards == s.Rewards()
    {
      var productionSum, qualifiedTotalVotes, foundationBonusCount := Denominators(s);
      rewards := map[];
      for i := 0 to |s.names|
        invariant forall x :: x in rewards <==> x in s.names[..i] && s.RewardOf(x) != Reward(0, 0, 0)
        invariant forall x :: x in rewards ==> rewards[x] == s.RewardOf(x)
      {
        hide Split.RewardOf;
        var reward := RewardFor(s, i, productionSum, qualifiedTotalVotes, foundationBonusCount);
        if reward != Reward(0, 0, 0) {
          rewards := rewards[s.names[i] := reward];
        }
        assert s.names[..i + 1] == s.names[..i] + [s.names[i]];
      }
      hide Split.RewardOf;
      assert s.names[..|s.names|] == s.names;
    }

    /** One aggregate row of rebuildAccountRewardTable: all to a sole candidate, otherwise a split. */
    method PayAddress(ghost c: Closing, blocks: seq<BlockRow>, epochNumber: nat, addr: Str,
                      names: seq<Str>, votes: map<Str, int>, total: Reward)
      returns (outcome: Outcome, pay: map<Str, Reward>, ghost ranking: seq<Str>)
      requires c.blocks == blocks && c.epoch == epochNumber && c.cfg == cfg && c.UniqueNames()
      requires names == c.Candidates(addr) && votes == c.Votes() && total == c.TotalOf(addr)
      ensures outcome == if |names| != 1 && c.Production() == map[] then Fail(NotExist) else Pass
      ensures Counted(c.Production()) && (|names| != 1 ==> IsRanking(ranking, votes))
      ensures outcome.Pass? ==> pay == c.PayOf(addr, ranking)
    {
      ProductionCounted(c);
      if |names| == 1 {
        return Pass, map[names[0] := total], [];
      }
      CandidatesHaveVotes(c, addr);
      outcome, pay, ranking := BreakdownRewards(c, blocks, epochNumber, names, votes, total);
    }

    /** SELECT reward_address, SUM(block_reward), SUM(epoch_reward), SUM(foundation_bonus) .. GROUP BY
        reward_address. */
    method AggregateRewards(history: seq<RewardRow>, lastEpoch: nat, ghost c: Closing)
      returns (totals: map<Str, Reward>)
      requires c.history == history && c.epoch == lastEpoch
      ensures totals.Keys == c.Addresses()
      ensures forall a :: a in totals ==> totals[a] == c.TotalOf(a)
    {
      var blockRewards := GroupBy(history, RewardSums(BlockReward), lastEpoch);
      var epochRewards := GroupBy(history, RewardSums(EpochReward), lastEpoch);
      var foundationBonuses := GroupBy(history, RewardSums(FoundationBonus), lastEpoch);
      SameGroups(history, lastEpoch);
      totals := map a | a in blockRewards :: Reward(blockRewards[a], epochRewards[a], foundationBonuses[a]);
    }

    /** The loop of rebuildAccountRewardTable over the aggregate rows, in whatever order the query returns them. */
    method PayAll(ghost c: Closing, blocks: seq<BlockRow>, lastEpoch: nat, totals: map<Str, Reward>,
                  names: map<Str, seq<Str>>, votes: map<Str, int>)
      returns (outcome: Outcome, vals: seq<(Str, Reward)>, ghost rankings: Rankings, ghost m: map<Str, Reward>)
      requires c.blocks == blocks && c.epoch == lastEpoch && c.cfg == cfg && c.UniqueNames()
      requires totals.Keys == c.Addresses() && forall a :: a in totals ==> totals[a] == c.TotalOf(a)
      requires votes == c.Votes() && forall a :: c.Candidates(a) == NamesAtAddress(names, a)
      ensures outcome == if NeedsSplit(c) && c.Production() == map[] then Fail(NotExist) else Pass
      ensures outcome.Pass? ==> PaidFor(c, c.Addresses(), vals, rankings, m)
    {
      hide PaidFor, NeedsSplit, Closing.PayOf, Closing.Production, Closing.TotalOf, ListsRows, IsRanking;
      vals, rankings, m := [], map[], map[];
      var rest := totals.Keys;
      PaidNone(c);
      assert totals.Keys - rest == {};
      while rest != {}
        invariant rest <= totals.Keys && PaidFor(c, totals.Keys - rest, vals, rankings, m)
        decreases rest
      {
        var a :| a in rest;
        var pay;
        ghost var ranking;
        var candidateNames := NamesAtAddress(names, a);
        outcome, pay, ranking := PayAddress(c, blocks, lastEpoch, a, candidateNames, votes, totals[a]);
        if outcome.Fail? {
          SplitNeeded(c, a);
          return;
        }
        var more := ListEntries(pay);
        PaidOneMore(c, totals.Keys - rest, vals, rankings, m, a, more, ranking);
        assert totals.Keys - rest + {a} == totals.Keys - (rest - {a});
        vals, m, rankings, rest := vals + more, m + pay, rankings[a := ranking], rest - {a};
      }
      assert totals.Keys - rest == c.Addresses();
      NoSplitMissed(c, vals, rankings, m);
      outcome := Pass;
    }

    /** rebuildAccountRewardTable. Block history is read from the committed database. */
    method RebuildAccountRewardTable(tx: Tx, blocks: seq<BlockRow>, lastEpoch: nat, ghost c: Closing)
      returns (outcome: Outcome, ghost rankings: Rankings, ghost m: map<Str, Reward>)
      requires c == Closing(cfg, lastEpoch, tx.votings.result, tx.rewards.history, blocks) && c.UniqueNames()
      modifies tx`rewards
      ensures outcome.Pass? ==> CreditsAll(c, rankings, m) && tx.rewards == AfterClosing(c, old(tx.rewards), m)
      ensures outcome.Fail? ==> tx.rewards == old(tx.rewards) && lastEpoch > 0
      ensures outcome == Fail(NotExist) <==>
                lastEpoch > 0 && (!HasVotes(c) || (NeedsSplit(c) && c.Production() == map[]))
      ensures outcome == Fail(SyntaxError) <==>
                && lastEpoch > 0 && HasVotes(c) && !(NeedsSplit(c) && c.Production() == map[])
                && c.Addresses() != {} && CreditsNothing(c, rankings)
      ensures outcome.Fail? ==> outcome == Fail(NotExist) || outcome == Fail(SyntaxError)
      ensures outcome.Fail? <==> ClosingFails(c, rankings)
    {
      hide HasVotes, NeedsSplit, PaidFor, CreditsNothing;
      rankings, m := map[], map[];
      if lastEpoch == 0 { return Pass, rankings, m; }
      var names, votes;
      outcome, names, votes := GetVotingInfo(c, tx.votings.result, lastEpoch);
      if outcome.Fail? { return; }
      var found := GroupBy(tx.rewards.history, RewardSums(BlockReward), lastEpoch);
      if found == map[] {
        assert c.Addresses() == found.Keys;
        NothingToSplit(c);
        return;
      }
      assert c.Addresses() == found.Keys;
      var vals;
      var totals := AggregateRewards(tx.rewards.history, lastEpoch, c);
      outcome, vals, rankings, m := PayAll(c, blocks, lastEpoch, totals, names, votes);
      hide Closing.PayOf, Closing.Production, Credits;
      if outcome.Fail? { return; }
      PaidIsCredited(c, vals, rankings, m);
      CreditsNothingIff(c, rankings, m);
      NothingListedIff(vals, m);
      if vals == [] {
        return Fail(SyntaxError), rankings, m;
      }
      var account := InsertRewards(tx.rewards.account, lastEpoch, vals, m);
      tx.rewards := tx.rewards.(account := account);
    }

    /** updateRewardHistory: one row for each address, in whatever order the map yields them. */
    method UpdateRewardHistory(tx: Tx, epochNumber: nat, actionHash: Str, info: map<Str, Reward>)
      returns (ghost rows: seq<RewardRow>)
      modifies tx`rewards
      ensures InfoRows(rows, epochNumber, actionHash, info, info.Keys) && Named(rows, rewardAddrToName)
      ensures tx.rewards == old(tx.rewards).(history := old(tx.rewards.history) + rows)
    {
      rows := [];
      var rest := info.Keys;
      ghost var before := tx.rewards;
      assert before.history + [] == before.history;
      while rest != {}
        invariant rest <= info.Keys
        invariant InfoRows(rows, epochNumber, actionHash, info, info.Keys - rest) && Named(rows, rewardAddrToName)
        invariant tx.rewards == before.(history := before.history + rows)
        decreases rest
      {
        hide InfoRows;
        var addr :| addr in rest;
        var candidateName: Str := [];
        if rewardAddrToName.Some? && |NamesAtAddress(rewardAddrToName.value, addr)| > 0 {
          candidateName := NamesAtAddress(rewardAddrToName.value, addr)[0];
        }
        var row := RewardRow(epochNumber, actionHash, addr, candidateName, info[addr]);
        OneMoreInfoRow(rows, epochNumber, actionHash, info, info.Keys - rest, row);
        assert info.Keys - rest + {addr} == info.Keys - (rest - {addr});
        assert before.history + rows + [row] == before.history + (rows + [row]);
        rest, rows := rest - {addr}, rows + [row];
        tx.rewards := tx.rewards.(history := tx.rewards.history + [row]);
      }
      assert info.Keys - rest == info.Keys;
    }

    /** HandleBlock. */
    method HandleBlock(tx: Tx, blocks: seq<BlockRow>, chain: Chain, blk: Block, out: Outage, ghost c: Closing)
      returns (outcome: Outcome, ghost s: Settlement)
      requires cfg.epochCtx.Divisors() && cfg.epochCtx.dardanellesHeight > 0 && blk.height > 0
      requires c == ClosingAt(cfg, PlaceOf(cfg.epochCtx, blk.height), tx.votings.result, tx.rewards.history, blocks)
      requires c.UniqueNames() && forall h :: FitsOffsets(|chain.candidates(h)|, READ_CANDIDATES_LIMIT)
      modifies this, tx`rewards
      ensures outcome.Pass? ==> Handled(PlaceOf(cfg.epochCtx, blk.height), blk, c, old(tx.rewards), s, tx.rewards)
      ensures outcome.Pass? ==> Named(s.rows, rewardAddrToName)
      ensures NamesHandled(cfg, chain, PlaceOf(cfg.epochCtx, blk.height), old(rewardAddrToName), rewardAddrToName,
                           outcome)
      ensures outcome.Fail?
              <==> Fails(PlaceOf(cfg.epochCtx, blk.height), blk, c, chain, old(rewardAddrToName), out, s.rankings)
    {
      hide FitsOffsets, RefreshFails, NamesAtPlace, Named, PlaceOf, CreditsAll, Closing.UniqueNames, AfterClosing,
           ClosingFails, CreditsNothing, HasVotes, NeedsSplit, Undecodable;
      var place := PlaceOf(cfg.epochCtx, blk.height);
      s := Settlement(map[], map[], []);
      if cfg.rolldpos && (place.starts || rewardAddrToName == None) {
        outcome := UpdateCandidateRewardAddress(chain, place, out);
        if outcome.Fail? { return; }
      }
      ghost var rankings, m := map[], map[];
      if cfg.rolldpos && place.starts {
        outcome, rankings, m := RebuildAccountRewardTable(tx, blocks, place.epoch - 1, c);
        s := s.(rankings := rankings);
        if outcome.Fail? { return; }
        ClosingKeepsHistory(c, old(tx.rewards), m);
      }
      ghost var rows;
      outcome, rows := LogRewards(tx, place.epoch, blk);
      s := Settlement(rankings, m, rows);
    }

    /** The loop of HandleBlock over the receipts of grant-reward actions. */
    method LogRewards(tx: Tx, epochNumber: nat, blk: Block) returns (outcome: Outcome, ghost rows: seq<RewardRow>)
      modifies tx`rewards
      ensures outcome.Pass? ==> GrantedRows(rows, epochNumber, blk, |blk.receipts|) && Named(rows, rewardAddrToName)
      ensures outcome.Pass? ==> tx.rewards == old(tx.rewards).(history := old(tx.rewards.history) + rows)
      ensures outcome.Fail? <==> Undecodable(blk)
    {
      hide GrantedRows, InfoRows, Named, KindIn, LogsTotalTo, LoggedTo;
      rows := [];
      ghost var before := tx.rewards;
      NoRowsYet(epochNumber, blk, rewardAddrToName);
      assert before.history + [] == before.history;
      for i := 0 to |blk.receipts|
        invariant GrantedRows(rows, epochNumber, blk, i) && Named(rows, rewardAddrToName)
        invariant tx.rewards == before.(history := before.history + rows)
        invariant forall j ::
                    0 <= j < i && blk.receipts[j].actionHash in blk.grantRewards ==> Malformed !in blk.receipts[j].logs
      {
        var receipt := blk.receipts[i];
        if receipt.actionHash in blk.grantRewards {
          var info := GetRewardInfoFromReceipt(receipt);
          if info.Failure? { return Fail(info.error), rows; }
          if info.value == map[] {
            NothingGranted(rows, epochNumber, blk, i, info.value);
          } else {
            ghost var added := UpdateRewardHistory(tx, epochNumber, receipt.actionHash, info.value);
            OneMoreReceipt(rows, added, epochNumber, blk, i, info.value);
            NamedTogether(rows, added, rewardAddrToName);
            assert before.history + rows + added == before.history + (rows + added);
            rows := rows + added;
          }
        } else {
          NotAGrant(rows, epochNumber, blk, i);
        }
      }
      outcome := Pass;
    }
  }

  lemma NamedTogether(rows: seq<RewardRow>, added: seq<RewardRow>, names: Names)
    requires Named(rows, names) && Named(added, names)
    ensures Named(rows + added, names)
  {}

  lemma NoRowsYet(e: nat, blk: Block, names: Names)
    ensures GrantedRows([], e, blk, 0) && Named([], names)
  {}

  lemma NothingGranted(rows: seq<RewardRow>, e: nat, blk: Block, n: nat, info: map<Str, Reward>)
    requires n < |blk.receipts| && GrantedRows(rows, e, blk, n) && info == map[]
    requires info.Keys == LoggedTo(blk.receipts[n].logs, |blk.receipts[n].logs|)
    requires forall kind, addr ::
               KindIn(info, kind)(addr) == LogsTotalTo(blk.receipts[n].logs, kind, addr, |blk.receipts[n].logs|)
    ensures GrantedRows(rows, e, blk, n + 1)
  {}

  lemma NotAGrant(rows: seq<RewardRow>, e: nat, blk: Block, n: nat)
    requires n < |blk.receipts| && GrantedRows(rows, e, blk, n) && blk.receipts[n].actionHash !in blk.grantRewards
    ensures GrantedRows(rows, e, blk, n + 1)
  {}

  /** How a block was settled: the rankings and credits of the epoch it closed, and the rows it appended. */
  datatype Settlement = Settlement(rankings: Rankings, credits: map<Str, Reward>, rows: seq<RewardRow>)

  /** What is read when a block at a place closes the epoch before it. */
  function ClosingAt(cfg: Config, p: Place, voting: seq<VotingRow>, history: seq<RewardRow>,
                     blocks: seq<BlockRow>): Closing
    requires p.epoch > 0
  {
    Closing(cfg, p.epoch - 1, voting, history, blocks)
  }

  function Closed(c: Closing, p: Place, t: RewardsTables, m: map<Str, Reward>): RewardsTables {
    if c.cfg.rolldpos && p.starts then AfterClosing(c, t, m) else t
  }

  /** What handling a block does to the tables. */
  ghost predicate Handled(p: Place, blk: Block, c: Closing, t: RewardsTables, s: Settlement, t': RewardsTables) {
    && (c.cfg.rolldpos && p.starts ==> CreditsAll(c, s.rankings, s.credits))
    && GrantedRows(s.rows, p.epoch, blk, |blk.receipts|)
    && t' == Closed(c, p, t, s.credits).(history := t.history + s.rows)
  }

  lemma CandidatesHaveVotes(c: Closing, addr: Str)
    requires c.UniqueNames()
    ensures forall i :: 0 <= i < |c.Candidates(addr)| ==> c.Candidates(addr)[i] in c.Votes()
  {
    CandidatesAre(c, addr, |c.voting|);
    VotesAre(c, |c.voting|);
    forall i | 0 <= i < |c.Candidates(addr)| ensures c.Candidates(addr)[i] in c.Votes() {
      assert c.Candidates(addr)[i] in c.CandidatesTo(addr, |c.voting|);
    }
  }

  /** The three sums of the query are grouped alike. */
  lemma SameGroups(history: seq<RewardRow>, e: nat)
    ensures Keys(history, RewardSums(EpochReward), e) == Keys(history, RewardSums(BlockReward), e)
    ensures Keys(history, RewardSums(FoundationBonus), e) == Keys(history, RewardSums(BlockReward), e)
  {}

  lemma NoWeightNoShare(total: int, sum: int)
    ensures Share(total, 0, sum) == 0
    ensures sum > 0 ==> Share(total, 1, sum) == total / sum
  {
    if sum > 0 { assert total * 0 / sum == 0; }
  }

  lemma {:induction false} BonusesCount(names: seq<Str>, f: Str -> int, n: nat)
    requires n <= |names| && forall i :: 0 <= i < |names| ==> f(names[i]) >= 0
    ensures SumTo(names, f, n) >= 0
  {
    if n > 0 { BonusesCount(names, f, n - 1); }
  }

  /** The divisor of the bonus is at least 1 whenever the bonus is divided. */
  lemma {:induction false} BonusCounted(names: seq<Str>, f: Str -> int, k: nat, n: nat)
    requires k < n <= |names| && f(names[k]) > 0 && forall i :: 0 <= i < |names| ==> f(names[i]) >= 0
    ensures SumTo(names, f, n) > 0
    ensures n == |names| ==> Sum(names, f) > 0
  {
    BonusesCount(names, f, n - 1);
    if k < n - 1 { BonusCounted(names, f, k, n - 1); }
  }

  /* ---------- conservation over an epoch ---------- */

  /** No negative votes, and no negative amounts in the reward history of the epoch. */
  ghost predicate NoDebts(c: Closing) {
    && (forall i :: 0 <= i < |c.voting| ==> c.voting[i].totalWeightedVotes >= 0)
    && (forall kind, addr :: HistoryTotal(c.history, c.epoch, kind, addr) >= 0)
  }

  lemma TotalOfKind(c: Closing, kind: RewardKind, addr: Str)
    ensures KindOf(kind, c.TotalOf(addr)) == HistoryTotal(c.history, c.epoch, kind, addr)
  {}

  lemma SplitValid(c: Closing, a: Str, ranking: seq<Str>)
    requires c.UniqueNames() && NoDebts(c) && Counted(c.Production())
    ensures c.SplitOf(a, ranking).Valid()
  {
    CandidatesAre(c, a, |c.voting|);
    VotesAre(c, |c.voting|);
    TotalOfKind(c, BlockReward, a);
    TotalOfKind(c, EpochReward, a);
    TotalOfKind(c, FoundationBonus, a);
    hide Closing.Production, Closing.TotalOf;
    forall i | 0 <= i < |c.Candidates(a)| ensures c.Candidates(a)[i] in c.Votes() && c.Votes()[c.Candidates(a)[i]] >= 0
    {
      var x := c.Candidates(a)[i];
      assert x in c.CandidatesTo(a, |c.voting|);
    }
  }

  lemma SumOfSingle(x: Str, r: Reward, kind: RewardKind)
    ensures SumOfKind(map[x := r], kind) == KindOf(kind, r)
  {
    var m := map[x := r];
    SumSetPick(m.Keys, KindIn(m, kind), x);
    assert m.Keys - {x} == {};
  }

  /** Per address: at most its rewards are credited, and exactly those when it has one candidate. For a shared
      address BreakdownConserves bounds the gap by the number of earners. */
  lemma AddressConserves(c: Closing, a: Str, ranking: seq<Str>, kind: RewardKind)
    requires c.UniqueNames() && NoDebts(c) && Counted(c.Production())
    ensures var total, paid := KindOf(kind, c.TotalOf(a)), SumOfKind(c.PayOf(a, ranking), kind);
            && 0 <= paid <= total
            && (|c.Candidates(a)| == 1 ==> paid == total)
            && (|c.Candidates(a)| != 1 && Sum(c.Candidates(a), c.SplitOf(a, ranking).Weight(kind)) > 0
                ==> total - paid < |c.Candidates(a)|)
  {
    TotalOfKind(c, kind, a);
    if |c.Candidates(a)| == 1 {
      SumOfSingle(c.Candidates(a)[0], c.TotalOf(a), kind);
    } else {
      SplitValid(c, a, ranking);
      BreakdownConserves(c.SplitOf(a, ranking), kind);
    }
  }

  ghost function PaidAt(c: Closing, rankings: Rankings, kind: RewardKind, a: Str): int
    requires Counted(c.Production())
  {
    if a in rankings then SumOfKind(c.PayOf(a, rankings[a]), kind) else 0
  }

  ghost function PaidBy(c: Closing, rankings: Rankings, kind: RewardKind): Str -> int
    requires Counted(c.Production())
  {
    a => PaidAt(c, rankings, kind, a)
  }

  function TotalBy(c: Closing, kind: RewardKind): Str -> int {
    a => KindOf(kind, c.TotalOf(a))
  }

  lemma CreditsWithout(m: map<Str, Reward>, c: Closing, rankings: Rankings, done: set<Str>, a: Str)
    requires Counted(c.Production()) && c.UniqueNames() && done <= rankings.Keys && a in done
    requires Credits(m, c, rankings, done)
    ensures Credits(m - c.PayOf(a, rankings[a]).Keys, c, rankings, done - {a})
    ensures forall x :: x in c.PayOf(a, rankings[a]) ==> x in m && m[x] == c.PayOf(a, rankings[a])[x]
  {
    forall b | b in done && b != a ensures c.PayOf(b, rankings[b]).Keys !! c.PayOf(a, rankings[a]).Keys {
      DisjointPay(c, b, a, rankings[b], rankings[a]);
    }
    hide Closing.PayOf;
    var parts := Pays(c, rankings, done);
    assert parts[a] == c.PayOf(a, rankings[a]);
    UnionWithout(m, parts, a);
    assert Pays(c, rankings, done - {a}) == parts - {a};
  }

  lemma SumOfParts(m: map<Str, Reward>, rest: map<Str, Reward>, pay: map<Str, Reward>, kind: RewardKind)
    requires rest == m - pay.Keys
    requires forall x :: x in pay ==> x in m && m[x] == pay[x]
    ensures SumOfKind(m, kind) == SumOfKind(rest, kind) + SumOfKind(pay, kind)
  {
    SumSetExtend(rest.Keys, m.Keys, KindIn(rest, kind));
    SumSetExtend(pay.Keys, m.Keys, KindIn(pay, kind));
    SumSetPlus(m.Keys, KindIn(rest, kind), KindIn(pay, kind), KindIn(m, kind));
  }

  /** The credits add up to what the addresses paid. */
  lemma {:induction false} CreditsAddUp(m: map<Str, Reward>, c: Closing, rankings: Rankings, done: set<Str>,
                                        kind: RewardKind)
    requires Counted(c.Production()) && c.UniqueNames() && done <= rankings.Keys && Credits(m, c, rankings, done)
    ensures SumOfKind(m, kind) == SumSet(done, PaidBy(c, rankings, kind))
    decreases done
  {
    if done == {} {
      assert m == map[];
    } else {
      var a :| a in done;
      var pay := c.PayOf(a, rankings[a]);
      var rest := m - pay.Keys;
      CreditsWithout(m, c, rankings, done, a);
      CreditsAddUp(rest, c, rankings, done - {a}, kind);
      SumOfParts(m, rest, pay, kind);
      SumSetPick(done, PaidBy(c, rankings, kind), a);
    }
  }
}
