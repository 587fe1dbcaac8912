/** account_reward as a view: for every closed epoch it holds what a recomputation from the base rows gives, up
    to how ties in votes were broken (indexprotocol/rewards/protocol.go). */
module RewardView {
  import opened Bytes
  import opened Schema
  import opened Sql
  import opened EpochContext
  import opened Ranking
  import opened RewardSplit
  import opened RewardShares
  import opened Rewards
  import opened RewardConservation
  import Blocks

  /* ---------- rows of later epochs do not matter ---------- */

  /** The tables of d extend those of c by rows of other epochs. */
  ghost predicate Extends(c: Closing, d: Closing) {
    && d.cfg == c.cfg && d.epoch == c.epoch
    && c.voting <= d.voting && (forall i :: |c.voting| <= i < |d.voting| ==> d.voting[i].epoch != c.epoch)
    && c.history <= d.history && (forall i :: |c.history| <= i < |d.history| ==> d.history[i].epoch != c.epoch)
    && c.blocks <= d.blocks && (forall i :: |c.blocks| <= i < |d.blocks| ==> d.blocks[i].epoch != c.epoch)
  }

  lemma {:induction false} SameCandidatesTo(c: Closing, d: Closing, addr: Str, n: nat)
    requires Extends(c, d) && n <= |d.voting|
    ensures d.CandidatesTo(addr, n) == c.CandidatesTo(addr, if n < |c.voting| then n else |c.voting|)
  {
    if n > 0 { SameCandidatesTo(c, d, addr, n - 1); }
  }

  lemma {:induction false} SameVotesTo(c: Closing, d: Closing, n: nat)
    requires Extends(c, d) && n <= |d.voting|
    ensures d.VotesTo(n) == c.VotesTo(if n < |c.voting| then n else |c.voting|)
  {
    if n > 0 { SameVotesTo(c, d, n - 1); }
  }

  lemma SameGrouping<R>(rows: seq<R>, all: seq<R>, q: Query<R>, e: nat, k: Str)
    requires rows <= all && forall i :: |rows| <= i < |all| ==> q.epochOf(all[i]) != e
    ensures Total(all, q, e, k) == Total(rows, q, e, k) && Keys(all, q, e) == Keys(rows, q, e)
  {
    var added := all[|rows|..];
    assert all == rows + added;
    AppendElsewhere(rows, added, q, e, k);
  }

  lemma SameProduction(c: Closing, d: Closing)
    requires Extends(c, d)
    ensures d.Production() == c.Production()
  {
    SameGrouping(c.blocks, d.blocks, Blocks.EXPECTED, c.epoch, []);
    forall n ensures Blocks.Recounted(d.blocks, c.epoch, n) == Blocks.Recounted(c.blocks, c.epoch, n) {
      SameGrouping(c.blocks, d.blocks, Blocks.EXPECTED, c.epoch, n);
      SameGrouping(c.blocks, d.blocks, Blocks.PRODUCED, c.epoch, n);
    }
  }

  lemma SameTotal(c: Closing, d: Closing, addr: Str)
    requires Extends(c, d)
    ensures d.TotalOf(addr) == c.TotalOf(addr) && d.Addresses() == c.Addresses()
  {
    SameGrouping(c.history, d.history, RewardSums(BlockReward), c.epoch, addr);
    SameGrouping(c.history, d.history, RewardSums(EpochReward), c.epoch, addr);
    SameGrouping(c.history, d.history, RewardSums(FoundationBonus), c.epoch, addr);
  }

  lemma SameInputs(c: Closing, d: Closing, addr: Str)
    requires Extends(c, d)
    ensures d.Candidates(addr) == c.Candidates(addr) && d.Votes() == c.Votes() && d.Production() == c.Production()
    ensures d.TotalOf(addr) == c.TotalOf(addr) && d.Addresses() == c.Addresses()
  {
    hide Closing.CandidatesTo, Closing.VotesTo, Closing.TotalOf, Closing.Production, Closing.Addresses;
    SameCandidatesTo(c, d, addr, |d.voting|);
    SameVotesTo(c, d, |d.voting|);
    SameProduction(c, d);
    SameTotal(c, d, addr);
  }

  lemma SamePay(c: Closing, d: Closing, addr: Str, ranking: seq<Str>)
    requires Extends(c, d) && Counted(c.Production()) && Counted(d.Production())
    ensures d.PayOf(addr, ranking) == c.PayOf(addr, ranking)
  {
    SameInputs(c, d, addr);
    hide Closing.Candidates, Closing.Votes, Closing.Production, Closing.TotalOf, Extends, Ranks, Split.Rewards;
    assert d.cfg == c.cfg by { SameConfig(c, d); }
  }

  lemma SameConfig(c: Closing, d: Closing)
    requires Extends(c, d)
    ensures d.cfg == c.cfg && d.epoch == c.epoch
  {}

  /** What was credited for an epoch stays what the tables call for. */
  lemma SameCredits(c: Closing, d: Closing, rankings: Rankings, m: map<Str, Reward>)
    requires Extends(c, d) && CreditsAll(c, rankings, m)
    ensures CreditsAll(d, rankings, m) && d.Addresses() == c.Addresses()
  {
    SameInputs(c, d, []);
    SameConfig(c, d);
    if c.epoch > 0 && c.Addresses() != {} {
      SamePays(c, d, rankings);
      SameRanks(c, d, rankings);
    }
  }

  lemma SameRanks(c: Closing, d: Closing, rankings: Rankings)
    requires Extends(c, d) && RanksAll(c, rankings, c.Addresses())
    ensures RanksAll(d, rankings, c.Addresses())
  {
    forall a | a in c.Addresses()
      ensures a in rankings && (|d.Candidates(a)| != 1 ==> IsRanking(rankings[a], d.Votes()))
    {
      SameInputs(c, d, a);
    }
  }

  lemma SamePays(c: Closing, d: Closing, rankings: Rankings)
    requires Extends(c, d) && Counted(c.Production()) && Counted(d.Production()) && c.Addresses() <= rankings.Keys
    ensures Pays(d, rankings, c.Addresses()) == Pays(c, rankings, c.Addresses())
  {
    forall a | a in c.Addresses() ensures d.PayOf(a, rankings[a]) == c.PayOf(a, rankings[a]) {
      SamePay(c, d, a, rankings[a]);
    }
    hide Closing.PayOf, Closing.Addresses, Closing.Production;
  }

  /* ---------- the view ---------- */

  /** The table's rows of an epoch are the credits of its addresses, for some order of ties. */
  ghost predicate Settled(c: Closing, m: map<Str, Reward>) {
    && (c.Addresses() == {} ==> m == map[])
    && exists rankings :: CreditsAll(c, rankings, m)
  }

  /** Every closed epoch is settled by what the tables hold now. */
  ghost predicate SettledUpTo(cfg: Config, voting: seq<VotingRow>, t: RewardsTables, blocks: seq<BlockRow>, open: nat) {
    cfg.rolldpos ==>
      forall e :: 1 <= e < open ==> Settled(Closing(cfg, e, voting, t.history, blocks), AccountOf(t.account, e))
  }

  lemma SettledStays(c: Closing, d: Closing, m: map<Str, Reward>)
    requires Extends(c, d) && Settled(c, m)
    ensures Settled(d, m)
  {
    var rankings :| CreditsAll(c, rankings, m);
    SameCredits(c, d, rankings, m);
    hide CreditsAll, Closing.Addresses, Extends;
  }

  lemma ClosingSettles(c: Closing, t: RewardsTables, rankings: Rankings, credits: map<Str, Reward>)
    requires c.epoch > 0 && CreditsAll(c, rankings, credits) && forall q :: q in t.account ==> q.0 < c.epoch
    ensures Settled(c, AccountOf(AfterClosing(c, t, credits).account, c.epoch))
  {
    AccountAfterClosing(c, t, credits);
    hide AccountOf, AfterClosing, RanksAll, Credits, Counted;
    assert CreditsAll(c, rankings, AccountOf(AfterClosing(c, t, credits).account, c.epoch));
  }

  lemma AccountAfterClosing(c: Closing, t: RewardsTables, credits: map<Str, Reward>)
    requires c.epoch > 0 && forall q :: q in t.account ==> q.0 < c.epoch
    ensures AccountOf(AfterClosing(c, t, credits).account, c.epoch) == if c.Addresses() == {} then map[] else credits
  {
    hide Closing.Addresses;
    var m := AccountOf(AfterClosing(c, t, credits).account, c.epoch);
    if c.Addresses() == {} { assert m == map[]; } else { assert m == credits; }
  }

  lemma OthersUntouched(c: Closing, p: Place, t: RewardsTables, credits: map<Str, Reward>, e: nat)
    requires e != c.epoch || !p.starts
    ensures AccountOf(Closed(c, p, t, credits).account, e) == AccountOf(t.account, e)
  {
    hide Closing.Addresses;
  }

  /** The additions of a block belong to the epoch in progress. */
  ghost predicate Adds<R>(rows: seq<R>, all: seq<R>, epochOf: R -> nat, e: nat) {
    rows <= all && forall i :: |rows| <= i < |all| ==> epochOf(all[i]) == e
  }

  /** Handling the next block keeps account_reward equal, for every closed epoch, to the credits recomputed from
      all voting, reward and block rows of the epoch. */
  lemma HandlingKeepsSettled(cfg: Config, p: Place, blk: Block, open: nat, voting: seq<VotingRow>,
                             voting': seq<VotingRow>, blocks: seq<BlockRow>, blocks': seq<BlockRow>, t: RewardsTables,
                             s: Settlement, t': RewardsTables)
    requires p.epoch > 0 && p.epoch == open + (if p.starts then 1 else 0)
    requires Rewards.Handled(p, blk, ClosingAt(cfg, p, voting, t.history, blocks), t, s, t')
    requires Adds(voting, voting', (r: VotingRow) => r.epoch, p.epoch)
             && Adds(blocks, blocks', (r: BlockRow) => r.epoch, p.epoch)
    requires (forall q :: q in t.account ==> 1 <= q.0 < open) && SettledUpTo(cfg, voting, t, blocks, open)
    ensures SettledUpTo(cfg, voting', t', blocks', p.epoch)
  {
    hide Settled, AccountOf, AfterClosing, CreditsAll;
    if cfg.rolldpos {
      forall e: nat | 1 <= e < p.epoch
        ensures Settled(Closing(cfg, e, voting', t'.history, blocks'), AccountOf(t'.account, e))
      {
        var c, d := Closing(cfg, e, voting, t.history, blocks), Closing(cfg, e, voting', t'.history, blocks');
        assert Extends(c, d);
        if e == open {
          ClosingSettles(c, t, s.rankings, s.credits);
        } else {
          OthersUntouched(ClosingAt(cfg, p, voting, t.history, blocks), p, t, s.credits, e);
        }
        SettledStays(c, d, AccountOf(t'.account, e));
      }
    }
  }

  /** What the candidates of an address are due, by a ranking of the epoch's votes: everything if there is one
      candidate, otherwise a split that falls short by less than their number for each kind that anybody earns. */
  ghost predicate PaidInFull(c: Closing, addr: Str, ranking: seq<Str>)
    requires Counted(c.Production())
  {
    && (|c.Candidates(addr)| != 1 ==> IsRanking(ranking, c.Votes()))
    && forall kind :: KindPaid(c, addr, ranking, kind)
  }

  ghost predicate KindPaid(c: Closing, addr: Str, ranking: seq<Str>, kind: RewardKind)
    requires Counted(c.Production())
  {
    var total, paid := KindOf(kind, c.TotalOf(addr)), SumOfKind(c.PayOf(addr, ranking), kind);
    && 0 <= paid <= total
    && (|c.Candidates(addr)| == 1 ==> paid == total)
    && (|c.Candidates(addr)| != 1 && Sum(c.Candidates(addr), c.SplitOf(addr, ranking).Weight(kind)) > 0
        ==> total - paid < |c.Candidates(addr)|)
  }

  /** The rows m are the credits of the addresses, each to a candidate of its own, and nothing else. */
  ghost predicate CreditedExactly(c: Closing, rankings: Rankings, m: map<Str, Reward>)
    requires Counted(c.Production()) && c.Addresses() <= rankings.Keys
  {
    && (forall a :: a in c.Addresses() ==> CreditedFor(c, a, rankings[a], m))
    && (forall x :: x in m ==> CreditedToSomebody(c, rankings, x))
  }

  ghost predicate CreditedFor(c: Closing, addr: Str, ranking: seq<Str>, m: map<Str, Reward>)
    requires Counted(c.Production())
  {
    var pay := c.PayOf(addr, ranking);
    forall x :: x in pay ==> x in c.Candidates(addr) && x in m && m[x] == pay[x]
  }

  ghost predicate CreditedToSomebody(c: Closing, rankings: Rankings, x: Str)
    requires Counted(c.Production()) && c.Addresses() <= rankings.Keys
  {
    exists a :: a in c.Addresses() && x in c.PayOf(a, rankings[a])
  }

  /** The rows m hold what the candidates of an address are due: everything if there is one, otherwise block reward by
      blocks produced, epoch reward by votes and foundation bonus in equal parts. */
  ghost predicate CreditedAsDue(c: Closing, addr: Str, ranking: seq<Str>, m: map<Str, Reward>)
    requires Counted(c.Production())
  {
    var names, total, prod := c.Candidates(addr), c.TotalOf(addr), c.Production();
    if |names| == 1 then names[0] in m && m[names[0]] == total
    else forall x :: x in names ==>
           Credited(m, x)
           == Reward(BlockDue(total.blockReward, names, prod, x),
                     EpochDue(c.cfg, total.epochReward, names, Ranks(ranking), c.Votes(), prod, x),
                     BonusDue(c.cfg, total.foundationBonus, names, Ranks(ranking), x))
  }

  /** The rows of a settled epoch, address by address. */
  lemma SettledByAddress(c: Closing, m: map<Str, Reward>) returns (rankings: Rankings)
    requires c.epoch > 0 && c.UniqueNames() && NoDebts(c) && Settled(c, m)
    ensures Counted(c.Production()) && c.Addresses() <= rankings.Keys
    ensures forall a :: a in c.Addresses() ==> PaidInFull(c, a, rankings[a])
    ensures CreditedExactly(c, rankings, m)
    ensures forall a :: a in c.Addresses() ==> CreditedAsDue(c, a, rankings[a], m)
  {
    ProductionCounted(c);
    if c.Addresses() == {} {
      rankings := map[];
    } else {
      rankings :| CreditsAll(c, rankings, m);
      AllCredited(c, rankings, m);
      forall a | a in c.Addresses() ensures PaidInFull(c, a, rankings[a]) {
        hide Closing.Addresses, Closing.Production, KindPaid, Credits;
        forall kind: RewardKind ensures KindPaid(c, a, rankings[a], kind) {
          hide *;
          KindIsPaid(c, a, rankings[a], kind);
        }
      }
      forall a | a in c.Addresses() ensures CreditedAsDue(c, a, rankings[a], m) {
        hide *;
        DuesAreCredited(c, rankings, m, a);
      }
    }
  }

  lemma DuesAreCredited(c: Closing, rankings: Rankings, m: map<Str, Reward>, addr: Str)
    requires c.UniqueNames() && Counted(c.Production()) && c.Addresses() <= rankings.Keys
    requires CreditedExactly(c, rankings, m) && addr in c.Addresses()
    ensures CreditedAsDue(c, addr, rankings[addr], m)
  {
    var names := c.Candidates(addr);
    if |names| == 1 {
      SolePaid(c, rankings, m, addr);
    } else {
      CandidatesDistinct(c, addr);
      PayIsSplit(c, addr, rankings[addr]);
      hide CreditedExactly, Closing.Candidates, Closing.Votes, Closing.Production, Closing.Addresses, Closing.TotalOf,
           Closing.UniqueNames, Closing.PayOf, Split.Rewards, BlockDue, EpochDue, BonusDue, Counted, Ranks, Distinct;
      forall x | x in names ensures Credited(m, x) == Credited(c.PayOf(addr, rankings[addr]), x) {
        NobodyElsePays(c, rankings, m, addr, x);
      }
      forall x | x in names {
        SharesAreDue(c.SplitOf(addr, rankings[addr]), x);
      }
    }
  }

  lemma PayIsSplit(c: Closing, addr: Str, ranking: seq<Str>)
    requires Counted(c.Production()) && |c.Candidates(addr)| != 1
    ensures c.PayOf(addr, ranking) == c.SplitOf(addr, ranking).Rewards()
  {}

  lemma CandidatesDistinct(c: Closing, a: Str)
    requires c.UniqueNames()
    ensures Distinct(c.Candidates(a))
  {
    CandidatesAre(c, a, |c.voting|);
    hide Closing.CandidatesTo;
  }

  lemma SolePaid(c: Closing, rankings: Rankings, m: map<Str, Reward>, addr: Str)
    requires Counted(c.Production()) && c.Addresses() <= rankings.Keys
    requires CreditedExactly(c, rankings, m) && addr in c.Addresses() && |c.Candidates(addr)| == 1
    ensures c.Candidates(addr)[0] in m && m[c.Candidates(addr)[0]] == c.TotalOf(addr)
  {
    hide Closing.Candidates, Closing.Production, Closing.Addresses, Closing.TotalOf, CreditedToSomebody;
    assert CreditedFor(c, addr, rankings[addr], m);
    assert c.Candidates(addr)[0] in c.PayOf(addr, rankings[addr]);
  }

  /** A candidate is credited by its own address or not at all. */
  lemma NobodyElsePays(c: Closing, rankings: Rankings, m: map<Str, Reward>, addr: Str, x: Str)
    requires c.UniqueNames() && Counted(c.Production()) && c.Addresses() <= rankings.Keys
    requires CreditedExactly(c, rankings, m) && addr in c.Addresses() && x in c.Candidates(addr)
    ensures Credited(m, x) == Credited(c.PayOf(addr, rankings[addr]), x)
  {
    hide Closing.Candidates, Closing.Production, Closing.Addresses, Closing.PayOf, Closing.UniqueNames, Counted;
    assert CreditedFor(c, addr, rankings[addr], m);
    if x in m {
      assert CreditedToSomebody(c, rankings, x);
      var a :| a in c.Addresses() && x in c.PayOf(a, rankings[a]);
      PaidAreCandidates(c, a, rankings[a], x);
      CandidateOfOne(c, a, addr, x);
    }
  }

  lemma KindIsPaid(c: Closing, addr: Str, ranking: seq<Str>, kind: RewardKind)
    requires c.UniqueNames() && NoDebts(c) && Counted(c.Production())
    ensures KindPaid(c, addr, ranking, kind)
  {
    AddressConserves(c, addr, ranking, kind);
    hide Closing.PayOf, Closing.Production, Closing.TotalOf, Closing.Candidates, Closing.SplitOf, SumOfKind;
  }

  lemma AllCredited(c: Closing, rankings: Rankings, m: map<Str, Reward>)
    requires c.epoch > 0 && c.Addresses() != {} && CreditsAll(c, rankings, m)
    ensures Counted(c.Production()) && c.Addresses() <= rankings.Keys && CreditedExactly(c, rankings, m)
  {
    CreditsAreTyped(c, rankings, m);
    hide CreditsAll, Closing.Production, Closing.Addresses, Closing.PayOf, Closing.Candidates, CreditedFor,
         CreditedToSomebody;
    forall a | a in c.Addresses() ensures CreditedFor(c, a, rankings[a], m) {
      AllCreditedFor(c, rankings, m, a);
    }
    forall x | x in m ensures CreditedToSomebody(c, rankings, x) {
      SomebodyCredited(c, rankings, m, x);
    }
  }

  lemma AllCreditedFor(c: Closing, rankings: Rankings, m: map<Str, Reward>, addr: Str)
    requires c.epoch > 0 && CreditsAll(c, rankings, m) && addr in c.Addresses()
    requires Counted(c.Production()) && addr in rankings
    ensures CreditedFor(c, addr, rankings[addr], m)
  {
    hide CreditsAll, Closing.Production, Closing.Addresses, Closing.PayOf, Closing.Candidates;
    forall x | x in c.PayOf(addr, rankings[addr])
      ensures x in c.Candidates(addr) && x in m && m[x] == c.PayOf(addr, rankings[addr])[x]
    {
      PaidAreCandidates(c, addr, rankings[addr], x);
      CreditedAt(c, rankings, m, addr, x);
    }
  }

  lemma SomebodyCredited(c: Closing, rankings: Rankings, m: map<Str, Reward>, x: Str)
    requires c.epoch > 0 && c.Addresses() != {} && CreditsAll(c, rankings, m) && x in m
    requires Counted(c.Production()) && c.Addresses() <= rankings.Keys
    ensures CreditedToSomebody(c, rankings, x)
  {
    hide CreditsAll, Closing.Production, Closing.Addresses, Closing.PayOf;
    var a := CreditedBy(c, rankings, m, x);
  }

  lemma CreditsAreTyped(c: Closing, rankings: Rankings, m: map<Str, Reward>)
    requires c.epoch > 0 && c.Addresses() != {} && CreditsAll(c, rankings, m)
    ensures Counted(c.Production()) && c.Addresses() <= rankings.Keys
  {}

  lemma CreditedBy(c: Closing, rankings: Rankings, m: map<Str, Reward>, x: Str) returns (a: Str)
    requires c.epoch > 0 && c.Addresses() != {} && CreditsAll(c, rankings, m) && x in m
    ensures a in c.Addresses() && x in c.PayOf(a, rankings[a])
  {
    hide Closing.PayOf, Closing.Production, Closing.Addresses, RanksAll;
    var parts := Pays(c, rankings, c.Addresses());
    a :| a in parts && x in parts[a];
  }

  lemma CreditedAt(c: Closing, rankings: Rankings, m: map<Str, Reward>, addr: Str, x: Str)
    requires c.epoch > 0 && CreditsAll(c, rankings, m) && addr in c.Addresses()
    requires Counted(c.Production()) && addr in rankings && x in c.PayOf(addr, rankings[addr])
    ensures x in m && m[x] == c.PayOf(addr, rankings[addr])[x]
  {
    hide Closing.PayOf, Closing.Production, Closing.Addresses, RanksAll;
    var parts := Pays(c, rankings, c.Addresses());
    assert addr in parts && x in parts[addr];
  }
}
