/** Splitting one reward address's rewards among the candidates that share it: breakdownRewards in
    indexprotocol/rewards/protocol.go, on whole numbers with floor division. */
module RewardSplit {
  import opened Bytes
  import opened Schema
  import opened Sql
  import opened EpochContext

  /* ---------- proportional split with floor division ---------- */

  function SumTo(names: seq<Str>, f: Str -> int, n: nat): int
    requires n <= |names|
  {
    if n == 0 then 0 else SumTo(names, f, n - 1) + f(names[n - 1])
  }

  function Sum(names: seq<Str>, f: Str -> int): int {
    SumTo(names, f, |names|)
  }

  function Share(total: int, weight: int, sum: int): int {
    if sum > 0 then total * weight / sum else 0
  }

  function ShareOf(total: int, weight: Str -> int, sum: int): Str -> int {
    c => Share(total, weight(c), sum)
  }

  /** Counts the names with a positive weight. */
  function Earner(weight: Str -> int): Str -> int {
    c => if weight(c) > 0 then 1 else 0
  }

  lemma OneShare(total: int, w: int, sum: int)
    requires total >= 0 && w >= 0 && sum > 0
    ensures Share(total, w, sum) >= 0
    ensures sum * Share(total, w, sum) <= total * w
    ensures total * w <= sum * Share(total, w, sum) + if w > 0 then sum - 1 else 0
  {
    var x := total * w;
    assert x >= 0;
    assert x == sum * (x / sum) + x % sum;
    if w == 0 { assert x == 0; }
    if x / sum < 0 { MulLe(sum, x / sum, -1); }
  }

  /** After any number of names, what was paid out and what it should have been differ by less than one unit
      for each earner. Both sides are scaled by the sum of all weights. */
  lemma {:induction false} FloorSplit(names: seq<Str>, total: int, weight: Str -> int, sum: int, n: nat)
    requires total >= 0 && sum > 0 && n <= |names|
    requires forall i :: 0 <= i < |names| ==> weight(names[i]) >= 0
    ensures var paid, owed := SumTo(names, ShareOf(total, weight, sum), n), total * SumTo(names, weight, n);
            0 <= paid && sum * paid <= owed <= sum * paid + (sum - 1) * SumTo(names, Earner(weight), n)
  {
    if n > 0 {
      FloorSplit(names, total, weight, sum, n - 1);
      var w := weight(names[n - 1]);
      OneShare(total, w, sum);
      AddProducts(total, SumTo(names, weight, n - 1), w);
      AddProducts(sum, SumTo(names, ShareOf(total, weight, sum), n - 1), Share(total, w, sum));
      AddProducts(sum - 1, SumTo(names, Earner(weight), n - 1), if w > 0 then 1 else 0);
    }
  }

  lemma AddProducts(k: int, a: int, b: int)
    ensures k * (a + b) == k * a + k * b
  {}

  lemma {:induction false} EarnersBound(names: seq<Str>, weight: Str -> int, n: nat)
    requires n <= |names| && forall i :: 0 <= i < |names| ==> weight(names[i]) >= 0
    ensures 0 <= SumTo(names, Earner(weight), n) <= n
    ensures SumTo(names, weight, n) > 0 ==> SumTo(names, Earner(weight), n) > 0
  {
    if n > 0 { EarnersBound(names, weight, n - 1); }
  }

  /** The shares never exceed the total; when anyone earns, the shortfall is less than the number of earners. */
  lemma SplitConserves(names: seq<Str>, total: int, weight: Str -> int)
    requires total >= 0 && forall i :: 0 <= i < |names| ==> weight(names[i]) >= 0
    ensures var sum := Sum(names, weight);
            var paid := Sum(names, ShareOf(total, weight, sum));
            && 0 <= paid <= total
            && (sum > 0 ==> total - paid < Sum(names, Earner(weight)))
            && (sum <= 0 ==> paid == 0)
  {
    var sum := Sum(names, weight);
    if sum > 0 {
      FloorSplit(names, total, weight, sum, |names|);
      EarnersBound(names, weight, |names|);
      Descale(sum, total, Sum(names, ShareOf(total, weight, sum)), Sum(names, Earner(weight)));
    } else {
      NoShares(names, total, weight, sum, |names|);
    }
  }

  lemma Descale(sum: int, total: int, paid: int, k: int)
    requires sum > 0 && k > 0 && sum * paid <= total * sum <= sum * paid + (sum - 1) * k
    ensures paid <= total && total - paid < k
  {
    if paid > total { MulLe(sum, total + 1, paid); }
    if total - paid >= k { MulLe(sum, k, total - paid); }
  }

  lemma {:induction false} NoShares(names: seq<Str>, total: int, weight: Str -> int, sum: int, n: nat)
    requires sum <= 0 && n <= |names|
    ensures SumTo(names, ShareOf(total, weight, sum), n) == 0
  {
    if n > 0 { NoShares(names, total, weight, sum, n - 1); }
  }

  /** With weights 0 and 1 everyone gets the same, and the shortfall is exactly the remainder. */
  lemma EvenSplit(names: seq<Str>, total: int, weight: Str -> int)
    requires total >= 0 && forall i :: 0 <= i < |names| ==> weight(names[i]) == 0 || weight(names[i]) == 1
    requires Sum(names, weight) > 0
    ensures total - Sum(names, ShareOf(total, weight, Sum(names, weight))) == total % Sum(names, weight)
  {
    var count := Sum(names, weight);
    EvenShares(names, total, weight, count, |names|);
    assert total == count * (total / count) + total % count;
  }

  lemma EvenShare(total: int, w: int, count: int)
    requires count > 0 && (w == 0 || w == 1)
    ensures total * w / count == (total / count) * w
  {
    assert total * 0 / count == 0;
  }

  lemma {:induction false} EvenShares(names: seq<Str>, total: int, weight: Str -> int, count: int, n: nat)
    requires count > 0 && n <= |names|
    requires forall i :: 0 <= i < |names| ==> weight(names[i]) == 0 || weight(names[i]) == 1
    ensures SumTo(names, ShareOf(total, weight, count), n) == (total / count) * SumTo(names, weight, n)
  {
    if n > 0 {
      EvenShares(names, total, weight, count, n - 1);
      var w := weight(names[n - 1]);
      EvenShare(total, w, count);
      AddProducts(total / count, SumTo(names, weight, n - 1), w);
    }
  }

  /* ---------- who earns what ---------- */

  /** Every producer on the list was expected at least once, because the list is grouped by expected turns. */
  predicate Counted(prod: map<Str, Productivity>) {
    forall c :: c in prod ==> prod[c].production >= 0 && prod[c].expected >= 1
  }

  /** Go's map lookup: 0 when the name has no rank. */
  function RankOf(ranks: map<Str, nat>, c: Str): nat {
    if c in ranks then ranks[c] else 0
  }

  function VotesOf(votes: map<Str, int>, c: Str): int {
    if c in votes then votes[c] else 0
  }

  predicate Productive(cfg: Config, prod: map<Str, Productivity>, c: Str)
    requires Counted(prod)
  {
    !(c in prod && prod[c].production * 100 / prod[c].expected < cfg.productivityThreshold)
  }

  predicate EarnsEpochReward(cfg: Config, ranks: map<Str, nat>, prod: map<Str, Productivity>, c: Str)
    requires Counted(prod)
  {
    RankOf(ranks, c) <= cfg.numDelegatesForEpochReward && c !in cfg.exemptCandidates && Productive(cfg, prod, c)
  }

  predicate EarnsFoundationBonus(cfg: Config, ranks: map<Str, nat>, c: Str) {
    RankOf(ranks, c) <= cfg.numDelegatesForFoundationBonus && c !in cfg.exemptCandidates
  }

  function BlockWeight(prod: map<Str, Productivity>): Str -> int {
    c => if c in prod then prod[c].production else 0
  }

  function EpochWeight(cfg: Config, ranks: map<Str, nat>, votes: map<Str, int>,
                       prod: map<Str, Productivity>): Str -> int
    requires Counted(prod)
  {
    c => if EarnsEpochReward(cfg, ranks, prod, c) then VotesOf(votes, c) else 0
  }

  function BonusWeight(cfg: Config, ranks: map<Str, nat>): Str -> int {
    c => if EarnsFoundationBonus(cfg, ranks, c) then 1 else 0
  }

  predicate Distinct(names: seq<Str>) {
    forall i, j :: 0 <= i < j < |names| ==> names[i] != names[j]
  }

  /** The inputs of one split. */
  datatype Split = Split(
    cfg: Config, names: seq<Str>, ranks: map<Str, nat>, votes: map<Str, int>, prod: map<Str, Productivity>,
    total: Reward)
  {
    predicate Valid() {
      && Counted(prod) && Distinct(names)
      && (forall i :: 0 <= i < |names| ==> names[i] in votes && votes[names[i]] >= 0)
      && total.blockReward >= 0 && total.epochReward >= 0 && total.foundationBonus >= 0
    }

    /** The weight by which a kind of reward is shared out. */
    function Weight(kind: RewardKind): Str -> int
      requires Counted(prod)
    {
      match kind
      case BlockReward => BlockWeight(prod)
      case EpochReward => EpochWeight(cfg, ranks, votes, prod)
      case FoundationBonus => BonusWeight(cfg, ranks)
    }

    function Paid(kind: RewardKind, c: Str): int
      requires Counted(prod)
    {
      Share(KindOf(kind, total), Weight(kind)(c), Sum(names, Weight(kind)))
    }

    function RewardOf(c: Str): Reward
      requires Counted(prod)
    {
      Reward(Paid(BlockReward, c), Paid(EpochReward, c),
             if total.foundationBonus > 0 then Paid(FoundationBonus, c) else 0)
    }

    /** The rewards by candidate; candidates that get nothing are left out. */
    function Rewards(): map<Str, Reward>
      requires Counted(prod)
    {
      map c | c in names && RewardOf(c) != Reward(0, 0, 0) :: RewardOf(c)
    }
  }

  function KindOf(kind: RewardKind, r: Reward): int {
    match kind
    case BlockReward => r.blockReward
    case EpochReward => r.epochReward
    case FoundationBonus => r.foundationBonus
  }

  /** Sum of one kind of reward over a table of rewards by name. */
  ghost function SumOfKind(m: map<Str, Reward>, kind: RewardKind): int {
    SumSet(m.Keys, KindIn(m, kind))
  }

  function KindIn(m: map<Str, Reward>, kind: RewardKind): Str -> int {
    c => if c in m then KindOf(kind, m[c]) else 0
  }

  /* ---------- conservation ---------- */

  /** The split gives nobody anything of this kind: nobody earns it, or the total is so small that every share
      rounds to 0. */
  ghost predicate KindGivesNothing(s: Split, kind: RewardKind)
    requires Counted(s.prod)
  {
    var total, sum := KindOf(kind, s.total), Sum(s.names, s.Weight(kind));
    || sum <= 0
    || (kind.FoundationBonus? && total <= 0)
    || forall i :: 0 <= i < |s.names| ==> 0 <= total * s.Weight(kind)(s.names[i]) < sum
  }

  ghost predicate GivesNothing(s: Split)
    requires Counted(s.prod)
  {
    forall kind :: KindGivesNothing(s, kind)
  }

  /** The amount of one kind that the split gives a candidate. */
  function Given(s: Split, kind: RewardKind, c: Str): int
    requires Counted(s.prod)
  {
    KindOf(kind, s.RewardOf(c))
  }

  lemma ZeroQuotientIff(a: int, n: int)
    requires n > 0
    ensures a / n == 0 <==> 0 <= a < n
  {}

  lemma KindGivesNothingIff(s: Split, kind: RewardKind)
    requires Counted(s.prod)
    ensures KindGivesNothing(s, kind) <==> forall i :: 0 <= i < |s.names| ==> Given(s, kind, s.names[i]) == 0
  {
    var total, sum := KindOf(kind, s.total), Sum(s.names, s.Weight(kind));
    if sum > 0 {
      forall i | 0 <= i < |s.names|
        ensures Share(total, s.Weight(kind)(s.names[i]), sum) == 0 <==> 0 <= total * s.Weight(kind)(s.names[i]) < sum
      {
        ZeroQuotientIff(total * s.Weight(kind)(s.names[i]), sum);
      }
    }
    hide Split.Weight, Sum;
  }

  /** A split credits nobody exactly when it gives nothing of any kind. */
  lemma GivesNothingIff(s: Split)
    requires Counted(s.prod)
    ensures s.Rewards() == map[] <==> GivesNothing(s)
  {
    KindGivesNothingIff(s, BlockReward);
    KindGivesNothingIff(s, EpochReward);
    KindGivesNothingIff(s, FoundationBonus);
    hide KindGivesNothing, Split.RewardOf;
    if GivesNothing(s) {
      assert KindGivesNothing(s, BlockReward) && KindGivesNothing(s, EpochReward)
             && KindGivesNothing(s, FoundationBonus);
      forall c | c in s.names ensures s.RewardOf(c) == Reward(0, 0, 0) {
        var i :| 0 <= i < |s.names| && s.names[i] == c;
        assert Given(s, BlockReward, s.names[i]) == 0 && Given(s, EpochReward, s.names[i]) == 0
               && Given(s, FoundationBonus, s.names[i]) == 0;
      }
    }
    if s.Rewards() == map[] {
      forall i | 0 <= i < |s.names| ensures s.RewardOf(s.names[i]) == Reward(0, 0, 0) {
        assert s.names[i] !in s.Rewards();
      }
      forall kind ensures KindGivesNothing(s, kind) {
        match kind case BlockReward => case EpochReward => case FoundationBonus =>
      }
    }
  }

  lemma WeightsNotNegative(s: Split, kind: RewardKind)
    requires s.Valid()
    ensures forall i :: 0 <= i < |s.names| ==> s.Weight(kind)(s.names[i]) >= 0
  {}

  function Names(names: seq<Str>, n: nat): set<Str>
    requires n <= |names|
  {
    set i | 0 <= i < n :: names[i]
  }

  lemma {:induction false} SumOverNames(names: seq<Str>, f: Str -> int, n: nat)
    requires n <= |names| && forall i, j :: 0 <= i < j < |names| ==> names[i] != names[j]
    ensures SumSet(Names(names, n), f) == SumTo(names, f, n)
  {
    if n > 0 {
      SumOverNames(names, f, n - 1);
      assert Names(names, n) == Names(names, n - 1) + {names[n - 1]};
      SumSetAdd(Names(names, n - 1), f, names[n - 1]);
    }
  }

  /** The rows written for a split add up to the sum of the shares, although empty rewards are left out. */
  lemma RewardsAddUp(s: Split, kind: RewardKind)
    requires s.Valid()
    ensures SumOfKind(s.Rewards(), kind)
            == Sum(s.names, ShareOf(KindOf(kind, s.total), s.Weight(kind), Sum(s.names, s.Weight(kind))))
  {
    var f := ShareOf(KindOf(kind, s.total), s.Weight(kind), Sum(s.names, s.Weight(kind)));
    var g := KindIn(s.Rewards(), kind);
    var all := Names(s.names, |s.names|);
    SumOverNames(s.names, f, |s.names|);
    assert s.Rewards().Keys <= all;
    forall c | c in all ensures g(c) == f(c) {
      ShareInRewards(s, kind, c);
    }
    SumSetExtend(s.Rewards().Keys, all, g);
    SumSetEqual(all, g, f);
  }

  lemma ShareInRewards(s: Split, kind: RewardKind, c: Str)
    requires s.Valid() && c in s.names
    ensures KindIn(s.Rewards(), kind)(c) == s.Paid(kind, c)
  {
    if kind.FoundationBonus? && s.total.foundationBonus == 0 {
      var w, sum := s.Weight(kind)(c), Sum(s.names, s.Weight(kind));
      if sum > 0 { assert 0 * w / sum == 0; }
    }
  }

  /** Every kind of reward: the shares are not negative and add up to at most the total. When somebody earns
      the kind, the shortfall is less than the number of earners; for the foundation bonus it is exactly the
      remainder of the division by their number. When nobody earns it, nothing is paid. */
  lemma BreakdownConserves(s: Split, kind: RewardKind)
    requires s.Valid()
    ensures var total, sum := KindOf(kind, s.total), Sum(s.names, s.Weight(kind));
            var paid := SumOfKind(s.Rewards(), kind);
            && 0 <= paid <= total
            && (sum > 0 ==> total - paid < Sum(s.names, Earner(s.Weight(kind))) <= |s.names|)
            && (sum > 0 && kind.FoundationBonus? ==> total - paid == total % sum)
            && (sum <= 0 ==> paid == 0)
  {
    WeightsNotNegative(s, kind);
    RewardsAddUp(s, kind);
    SplitConserves(s.names, KindOf(kind, s.total), s.Weight(kind));
    EarnersBound(s.names, s.Weight(kind), |s.names|);
    if kind.FoundationBonus? && Sum(s.names, s.Weight(kind)) > 0 {
      EvenSplit(s.names, KindOf(kind, s.total), s.Weight(kind));
    }
  }

  /** A single candidate that earns a kind gets all of it: the pass-through for unshared addresses is the
      same as the general split. */
  lemma SingleCandidateGetsAll(s: Split, kind: RewardKind, c: Str)
    requires s.Valid() && s.names == [c] && s.Weight(kind)(c) > 0
    ensures KindIn(s.Rewards(), kind)(c) == KindOf(kind, s.total)
  {
    var w := s.Weight(kind)(c);
    SumOfOne(s.names, s.Weight(kind), c);
    ShareInRewards(s, kind, c);
    hide *;
    WholeShare(KindOf(kind, s.total), w);
  }

  lemma SumOfOne(names: seq<Str>, f: Str -> int, c: Str)
    requires names == [c]
    ensures Sum(names, f) == f(c)
  {
    assert SumTo(names, f, 1) == SumTo(names, f, 0) + f(c);
  }

  lemma WholeShare(total: int, w: int)
    requires w > 0
    ensures Share(total, w, w) == total
  {
    DivUnique(total * w, w, total, 0);
  }

  /** A larger weight never gets a smaller share. */
  lemma SharesMonotone(s: Split, kind: RewardKind, c: Str, d: Str)
    requires s.Valid() && c in s.names && d in s.names && s.Weight(kind)(c) <= s.Weight(kind)(d)
    ensures KindIn(s.Rewards(), kind)(c) <= KindIn(s.Rewards(), kind)(d)
  {
    ShareInRewards(s, kind, c);
    ShareInRewards(s, kind, d);
    var total, sum := KindOf(kind, s.total), Sum(s.names, s.Weight(kind));
    ShareMonotone(total, s.Weight(kind)(c), s.Weight(kind)(d), sum);
  }

  lemma ShareMonotone(total: int, v: int, w: int, sum: int)
    requires total >= 0 && v <= w
    ensures Share(total, v, sum) <= Share(total, w, sum)
  {
    if sum > 0 {
      assert total * v <= total * w;
      DivOrder(total * v, total * w, sum);
    }
  }

  lemma DivOrder(a: int, b: int, n: int)
    requires n > 0 && a <= b
    ensures a / n <= b / n
  {
    if a / n > b / n { MulLe(n, b / n + 1, a / n); }
  }
}
