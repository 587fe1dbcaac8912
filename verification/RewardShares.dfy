/** What each candidate of a shared reward address is due, written out from the epoch's figures
    (indexprotocol/rewards/protocol.go). */
module RewardShares {
  import opened Bytes
  import opened Schema
  import opened Sql
  import opened RewardSplit

  /* ---------- the shares, written out ---------- */

  /** The candidates of the address that have production figures. */
  function Producers(names: seq<Str>, prod: map<Str, Productivity>): set<Str> {
    set d | d in names && d in prod
  }

  function ProductionOf(prod: map<Str, Productivity>): Str -> int {
    d => if d in prod then prod[d].production else 0
  }

  /** Block reward goes by the blocks produced. */
  ghost function BlockDue(total: int, names: seq<Str>, prod: map<Str, Productivity>, x: Str): int {
    var all := SumSet(Producers(names, prod), ProductionOf(prod));
    if x in prod && all > 0 then total * prod[x].production / all else 0
  }

  /** The candidates of the address that get epoch reward: ranked within the limit, not exempt, and not below the
      threshold, in percent of the blocks that were expected of them. */
  function Admitted(cfg: Config, names: seq<Str>, ranks: map<Str, nat>, prod: map<Str, Productivity>): set<Str>
    requires Counted(prod)
  {
    set d | d in names
      && (d in ranks ==> ranks[d] <= cfg.numDelegatesForEpochReward) && d !in cfg.exemptCandidates
      && (d in prod ==> prod[d].production * 100 / prod[d].expected >= cfg.productivityThreshold)
  }

  function VotesFor(votes: map<Str, int>): Str -> int {
    d => if d in votes then votes[d] else 0
  }

  /** Epoch reward goes by votes. */
  ghost function EpochDue(cfg: Config, total: int, names: seq<Str>, ranks: map<Str, nat>, votes: map<Str, int>,
                          prod: map<Str, Productivity>, x: Str): int
    requires Counted(prod)
  {
    var all := SumSet(Admitted(cfg, names, ranks, prod), VotesFor(votes));
    if x in Admitted(cfg, names, ranks, prod) && x in votes && all > 0 then total * votes[x] / all else 0
  }

  /** The candidates of the address that get foundation bonus. */
  function Favoured(cfg: Config, names: seq<Str>, ranks: map<Str, nat>): set<Str> {
    set d | d in names
      && (d in ranks ==> ranks[d] <= cfg.numDelegatesForFoundationBonus) && d !in cfg.exemptCandidates
  }

  /** Foundation bonus is divided evenly. */
  function BonusDue(cfg: Config, total: int, names: seq<Str>, ranks: map<Str, nat>, x: Str): int {
    if x in Favoured(cfg, names, ranks) && total > 0 then total / |Favoured(cfg, names, ranks)| else 0
  }

  /* ---------- the split computes them ---------- */

  /** The sum of a weight over a list is the sum over the candidates it gives anything. */
  lemma SumOfEarners(names: seq<Str>, w: Str -> int, s: set<Str>, f: Str -> int)
    requires Distinct(names) && s <= Names(names, |names|)
    requires forall x :: x in names ==> w(x) == if x in s then f(x) else 0
    ensures Sum(names, w) == SumSet(s, f)
  {
    SumOverNames(names, w, |names|);
    SumSetEqual(s, f, w);
    SumSetExtend(s, Names(names, |names|), w);
  }

  lemma ListedNames(names: seq<Str>)
    ensures forall x :: x in Names(names, |names|) <==> x in names
  {}

  lemma BlockShares(s: Split, x: Str)
    requires Counted(s.prod) && Distinct(s.names) && x in s.names
    ensures s.RewardOf(x).blockReward == BlockDue(s.total.blockReward, s.names, s.prod, x)
  {
    ListedNames(s.names);
    SumOfEarners(s.names, s.Weight(BlockReward), Producers(s.names, s.prod), ProductionOf(s.prod));
    hide Sum, SumSet, Names, Distinct;
    NoShareOfNothing(s.total.blockReward, SumSet(Producers(s.names, s.prod), ProductionOf(s.prod)));
  }

  lemma NoShareOfNothing(total: int, sum: int)
    ensures sum > 0 ==> total * 0 / sum == 0
  {
    if sum > 0 { assert total * 0 == 0; }
  }

  lemma EpochShares(s: Split, x: Str)
    requires Counted(s.prod) && Distinct(s.names) && x in s.names
    ensures s.RewardOf(x).epochReward
            == EpochDue(s.cfg, s.total.epochReward, s.names, s.ranks, s.votes, s.prod, x)
  {
    var admitted := Admitted(s.cfg, s.names, s.ranks, s.prod);
    ListedNames(s.names);
    SumOfEarners(s.names, s.Weight(EpochReward), admitted, VotesFor(s.votes));
    hide Sum, SumSet, Names, Distinct;
    NoShareOfNothing(s.total.epochReward, SumSet(admitted, VotesFor(s.votes)));
  }

  lemma {:induction false} CountOfOnes(s: set<Str>, f: Str -> int)
    requires forall x :: x in s ==> f(x) == 1
    ensures SumSet(s, f) == |s|
    decreases s
  {
    if s != {} {
      var x :| x in s && SumSet(s, f) == f(x) + SumSet(s - {x}, f);
      CountOfOnes(s - {x}, f);
    }
  }

  lemma BonusShares(s: Split, x: Str)
    requires Counted(s.prod) && Distinct(s.names) && x in s.names
    ensures s.RewardOf(x).foundationBonus == BonusDue(s.cfg, s.total.foundationBonus, s.names, s.ranks, x)
  {
    var favoured := Favoured(s.cfg, s.names, s.ranks);
    ListedNames(s.names);
    SumOfEarners(s.names, s.Weight(FoundationBonus), favoured, (d: Str) => 1);
    CountOfOnes(favoured, (d: Str) => 1);
    hide Sum, SumSet, Names, Distinct;
    NoShareOfNothing(s.total.foundationBonus, |favoured|);
    if x in favoured { NotEmpty(favoured, x); }
  }

  lemma NotEmpty(s: set<Str>, x: Str)
    requires x in s
    ensures |s| > 0
  {}

  /** What a candidate is credited with, nothing included. */
  function Credited(pay: map<Str, Reward>, x: Str): Reward {
    if x in pay then pay[x] else Reward(0, 0, 0)
  }

  /** The split credits every candidate of the address with what it is due, of each of the three kinds. */
  lemma SharesAreDue(s: Split, x: Str)
    requires Counted(s.prod) && Distinct(s.names) && x in s.names
    ensures Credited(s.Rewards(), x)
            == Reward(BlockDue(s.total.blockReward, s.names, s.prod, x),
                      EpochDue(s.cfg, s.total.epochReward, s.names, s.ranks, s.votes, s.prod, x),
                      BonusDue(s.cfg, s.total.foundationBonus, s.names, s.ranks, x))
  {
    BlockShares(s, x);
    EpochShares(s, x);
    BonusShares(s, x);
    hide Split.RewardOf, BlockDue, EpochDue, BonusDue, Distinct;
  }
}
