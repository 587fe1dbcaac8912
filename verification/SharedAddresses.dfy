/** The limits on epoch reward and foundation bonus over all splits of one epoch: which candidates of shared
    reward addresses can rank within them (indexprotocol/rewards/protocol.go). */
module SharedAddresses {
  import opened Bytes
  import opened Schema
  import opened Sql
  import opened Ranking
  import opened RewardSplit
  import opened Rewards
  import opened RankLimit

  function NamesIn(names: seq<Str>): set<Str> {
    set i | 0 <= i < |names| :: names[i]
  }

  /** The candidates of each address whose rewards are split. */
  function GroupsOf(c: Closing): map<Str, set<Str>> {
    map a | a in c.Addresses() && |c.Candidates(a)| != 1 :: NamesIn(c.Candidates(a))
  }

  /** Some candidates of each of these addresses. */
  ghost predicate PartOf(groups: map<Str, set<Str>>, c: Closing) {
    groups.Keys == GroupsOf(c).Keys && forall a :: a in groups ==> groups[a] <= GroupsOf(c)[a]
  }

  lemma PartsAreGrouped(c: Closing, groups: map<Str, set<Str>>)
    requires c.UniqueNames() && PartOf(groups, c)
    ensures Grouped(groups, c.Votes()) && groups.Keys <= c.Addresses()
  {
    hide Closing.Candidates, Closing.Votes, Closing.Addresses, Closing.UniqueNames;
    forall a | a in groups ensures groups[a] <= c.Votes().Keys {
      CandidatesHaveVotes(c, a);
    }
    forall a, b, x | a in groups && b in groups && x in groups[a] && x in groups[b] ensures a == b {
      assert x in c.Candidates(a) && x in c.Candidates(b);
      CandidateOfOne(c, a, b, x);
    }
  }

  /** Votes are enough for the limit on these candidates: for every number v of votes that can be within it, those
      of them with more than v votes, together with the places that each shared address can fill from its own with
      v votes, are at most the limit. */
  ghost predicate LimitHolds(c: Closing, groups: map<Str, set<Str>>, limit: nat)
    requires c.UniqueNames() && PartOf(groups, c)
  {
    PartsAreGrouped(c, groups);
    StaysWithin(groups, c.Votes(), limit)
  }

  /** One ranking of all candidates for every address of the epoch: a way to break ties. */
  ghost predicate BreaksTies(c: Closing, rankings: Rankings) {
    c.Addresses() <= rankings.Keys && RanksAll(c, rankings, c.Addresses())
  }

  lemma TiesRanked(c: Closing, groups: map<Str, set<Str>>, rankings: Rankings)
    requires PartOf(groups, c) && BreaksTies(c, rankings)
    ensures groups.Keys <= rankings.Keys && Ranked(groups, c.Votes(), rankings)
  {
    hide Closing.Candidates, Closing.Votes, Closing.Addresses, IsRanking;
  }

  /** Over all ways in which the splits of an epoch can break ties, at most `limit` of these candidates rank within
      the limit exactly when the votes are enough for it. */
  lemma LimitHoldsIff(c: Closing, groups: map<Str, set<Str>>, limit: nat)
    requires c.UniqueNames() && PartOf(groups, c)
    ensures LimitHolds(c, groups, limit)
       <==> forall rankings: Rankings :: BreaksTies(c, rankings) && groups.Keys <= rankings.Keys
                                         ==> |Ins(groups, rankings, limit)| <= limit
  {
    hide Closing.Votes, Closing.UniqueNames, BreaksTies, StaysWithin, PartOf, Ins;
    PartsAreGrouped(c, groups);
    if LimitHolds(c, groups, limit) {
      forall rankings: Rankings | BreaksTies(c, rankings) && groups.Keys <= rankings.Keys
        ensures |Ins(groups, rankings, limit)| <= limit
      {
        TiesRanked(c, groups, rankings);
        AtMostLimit(groups, c.Votes(), rankings, limit);
      }
    } else {
      var rankings := LimitExceeded(c, groups, limit);
    }
  }

  /** If the votes are not enough, some way to break ties lets more candidates in. */
  lemma LimitExceeded(c: Closing, groups: map<Str, set<Str>>, limit: nat) returns (rankings: Rankings)
    requires c.UniqueNames() && PartOf(groups, c) && !LimitHolds(c, groups, limit)
    ensures BreaksTies(c, rankings) && groups.Keys <= rankings.Keys && |Ins(groups, rankings, limit)| > limit
  {
    hide *;
    var shared := SharedBeyond(c, groups, limit);
    rankings := map a | a in c.Addresses() :: if a in shared then shared[a] else [];
    SameIns(groups, shared, rankings, limit);
    SharedRankAll(c, groups, shared, rankings);
  }

  lemma SharedBeyond(c: Closing, groups: map<Str, set<Str>>, limit: nat) returns (shared: Rankings)
    requires c.UniqueNames() && PartOf(groups, c) && !LimitHolds(c, groups, limit)
    ensures shared.Keys == groups.Keys <= c.Addresses() && Ranked(groups, c.Votes(), shared)
    ensures |Ins(groups, shared, limit)| > limit
  {
    PartsAreGrouped(c, groups);
    hide GroupsOf, StaysWithin, Grouped, PartOf;
    shared := ReachesBeyond(groups, c.Votes(), limit);
  }

  lemma SharedRankAll(c: Closing, groups: map<Str, set<Str>>, shared: Rankings, rankings: Rankings)
    requires PartOf(groups, c) && shared.Keys == groups.Keys && Ranked(groups, c.Votes(), shared)
    requires rankings.Keys == c.Addresses() && forall a :: a in groups ==> a in rankings && rankings[a] == shared[a]
    ensures BreaksTies(c, rankings)
  {
    hide Closing.Candidates, Closing.Votes, Closing.Addresses, IsRanking, NamesIn;
    forall a | a in c.Addresses()
      ensures a in rankings && (|c.Candidates(a)| != 1 ==> IsRanking(rankings[a], c.Votes()))
    {
      if |c.Candidates(a)| != 1 { assert a in GroupsOf(c); }
    }
  }

  lemma SameIns(groups: map<Str, set<Str>>, shared: Rankings, rankings: Rankings, limit: nat)
    requires groups.Keys <= shared.Keys && groups.Keys <= rankings.Keys
             && forall a :: a in groups ==> rankings[a] == shared[a]
    ensures Ins(groups, rankings, limit) == Ins(groups, shared, limit)
  {
    hide Within;
  }

  /* ---------- who qualifies ---------- */

  /** The candidates of shared addresses that qualify for epoch reward: by rank, without an exemption, and
      productive. */
  function EpochEarners(c: Closing, rankings: Rankings): set<Str>
    requires c.Addresses() <= rankings.Keys && Counted(c.Production())
  {
    set a, x | a in GroupsOf(c) && x in GroupsOf(c)[a]
      && EarnsEpochReward(c.cfg, Ranks(rankings[a]), c.Production(), x) :: x
  }

  /** Those that qualify for foundation bonus: by rank, and without an exemption. */
  function BonusEarners(c: Closing, rankings: Rankings): set<Str>
    requires c.Addresses() <= rankings.Keys
  {
    set a, x | a in GroupsOf(c) && x in GroupsOf(c)[a] && EarnsFoundationBonus(c.cfg, Ranks(rankings[a]), x) :: x
  }

  /** The candidates that only their rank can keep from epoch reward. */
  function Eligible(c: Closing): map<Str, set<Str>>
    requires Counted(c.Production())
  {
    map a | a in GroupsOf(c) ::
      set x | x in GroupsOf(c)[a] && x !in c.cfg.exemptCandidates && Productive(c.cfg, c.Production(), x)
  }

  function BonusEligible(c: Closing): map<Str, set<Str>> {
    map a | a in GroupsOf(c) :: set x | x in GroupsOf(c)[a] && x !in c.cfg.exemptCandidates
  }

  lemma EligibleIsPart(c: Closing)
    requires Counted(c.Production())
    ensures PartOf(Eligible(c), c)
  {
    hide GroupsOf, Closing.Production;
  }

  lemma BonusEligibleIsPart(c: Closing)
    ensures PartOf(BonusEligible(c), c)
  {
    hide GroupsOf;
  }

  /** Within the limit is what the code compares the rank with. */
  lemma RankCompared(c: Closing, rankings: Rankings, a: Str, x: Str, limit: nat)
    requires c.UniqueNames() && BreaksTies(c, rankings) && a in GroupsOf(c) && x in GroupsOf(c)[a]
    ensures a in c.Addresses() && (RankOf(Ranks(rankings[a]), x) <= limit <==> x in Within(rankings[a], limit))
  {
    CandidatesHaveVotes(c, a);
    hide Closing.Candidates, Closing.Votes, Closing.Addresses, Closing.UniqueNames, Ranks, IsRanking;
    RankBounds(rankings[a], c.Votes(), x);
  }

  lemma EpochEarnersAreIns(c: Closing, rankings: Rankings)
    requires c.UniqueNames() && BreaksTies(c, rankings) && Counted(c.Production())
    ensures c.Addresses() <= rankings.Keys && Eligible(c).Keys <= rankings.Keys
    ensures EpochEarners(c, rankings) == Ins(Eligible(c), rankings, c.cfg.numDelegatesForEpochReward)
  {
    EligibleIsPart(c);
    TiesRanked(c, Eligible(c), rankings);
    forall a, x | a in GroupsOf(c) && x in GroupsOf(c)[a]
      ensures a in c.Addresses()
      ensures RankOf(Ranks(rankings[a]), x) <= c.cfg.numDelegatesForEpochReward
              <==> x in Within(rankings[a], c.cfg.numDelegatesForEpochReward)
    {
      hide *;
      RankCompared(c, rankings, a, x, c.cfg.numDelegatesForEpochReward);
    }
    hide GroupsOf, Closing.Production, Ranks, Within, Counted, RankOf, Productive, PartOf;
  }

  lemma BonusEarnersAreIns(c: Closing, rankings: Rankings)
    requires c.UniqueNames() && BreaksTies(c, rankings)
    ensures c.Addresses() <= rankings.Keys && BonusEligible(c).Keys <= rankings.Keys
    ensures BonusEarners(c, rankings) == Ins(BonusEligible(c), rankings, c.cfg.numDelegatesForFoundationBonus)
  {
    BonusEligibleIsPart(c);
    TiesRanked(c, BonusEligible(c), rankings);
    forall a, x | a in GroupsOf(c) && x in GroupsOf(c)[a]
      ensures a in c.Addresses()
      ensures RankOf(Ranks(rankings[a]), x) <= c.cfg.numDelegatesForFoundationBonus
              <==> x in Within(rankings[a], c.cfg.numDelegatesForFoundationBonus)
    {
      hide *;
      RankCompared(c, rankings, a, x, c.cfg.numDelegatesForFoundationBonus);
    }
    hide GroupsOf, Ranks, Within, RankOf, PartOf;
  }

  /** The votes, exemptions and production of the epoch are enough for the limit on epoch reward. */
  ghost predicate EpochLimitHolds(c: Closing)
    requires c.UniqueNames() && Counted(c.Production())
  {
    EligibleIsPart(c);
    LimitHolds(c, Eligible(c), c.cfg.numDelegatesForEpochReward)
  }

  ghost predicate BonusLimitHolds(c: Closing)
    requires c.UniqueNames()
  {
    BonusEligibleIsPart(c);
    LimitHolds(c, BonusEligible(c), c.cfg.numDelegatesForFoundationBonus)
  }

  /** However ties are broken, at most the configured number of candidates of shared addresses qualify for epoch
      reward, exactly when the tables of the epoch are enough for it. */
  lemma EpochEarnersWithinIff(c: Closing)
    requires c.UniqueNames() && Counted(c.Production())
    ensures EpochLimitHolds(c)
       <==> forall rankings: Rankings :: c.Addresses() <= rankings.Keys && BreaksTies(c, rankings)
                                         ==> |EpochEarners(c, rankings)| <= c.cfg.numDelegatesForEpochReward
  {
    EligibleIsPart(c);
    LimitHoldsIff(c, Eligible(c), c.cfg.numDelegatesForEpochReward);
    forall rankings: Rankings | BreaksTies(c, rankings)
      ensures c.Addresses() <= rankings.Keys && Eligible(c).Keys <= rankings.Keys
      ensures EpochEarners(c, rankings) == Ins(Eligible(c), rankings, c.cfg.numDelegatesForEpochReward)
    {
      hide *;
      EpochEarnersAreIns(c, rankings);
    }
    hide Closing.Production, Closing.UniqueNames, Eligible, EpochEarners, Ins, LimitHolds, BreaksTies, PartOf, Counted,
         Closing.Addresses;
  }

  /** The same for foundation bonus. */
  lemma BonusEarnersWithinIff(c: Closing)
    requires c.UniqueNames()
    ensures BonusLimitHolds(c)
       <==> forall rankings: Rankings :: c.Addresses() <= rankings.Keys && BreaksTies(c, rankings)
                                         ==> |BonusEarners(c, rankings)| <= c.cfg.numDelegatesForFoundationBonus
  {
    BonusEligibleIsPart(c);
    LimitHoldsIff(c, BonusEligible(c), c.cfg.numDelegatesForFoundationBonus);
    forall rankings: Rankings | BreaksTies(c, rankings)
      ensures c.Addresses() <= rankings.Keys && BonusEligible(c).Keys <= rankings.Keys
      ensures BonusEarners(c, rankings) == Ins(BonusEligible(c), rankings, c.cfg.numDelegatesForFoundationBonus)
    {
      hide *;
      BonusEarnersAreIns(c, rankings);
    }
    hide Closing.UniqueNames, BonusEligible, BonusEarners, Ins, LimitHolds, BreaksTies, PartOf, Closing.Addresses;
  }

  /* ---------- when votes are enough ---------- */

  /** No candidates with equal votes lie on both sides of the limit. */
  ghost predicate NoTieAcross(votes: map<Str, int>, limit: nat) {
    forall c :: c in votes ==> |Above(votes, votes[c])| >= limit || |AtLeast(votes, votes[c])| <= limit
  }

  function AllTied(votes: map<Str, int>, v: int): set<Str> {
    set x | x in votes.Keys && votes[x] == v
  }

  function TiedParts(groups: map<Str, set<Str>>, votes: map<Str, int>, v: int): map<Str, set<Str>>
    requires Grouped(groups, votes)
  {
    map a | a in groups :: Tied(groups[a], votes, v)
  }

  lemma ReachAtMost(groups: map<Str, set<Str>>, votes: map<Str, int>, v: int, limit: nat)
    requires Grouped(groups, votes)
    ensures Reach(groups, votes, v, limit) <= |AtLeast(votes, v)|
  {
    var parts := TiedParts(groups, votes, v);
    TiedPartsFit(groups, votes, v, limit);
    AboveAndTied(votes, v);
    hide TiedParts, Places, SizeOf, UnionAt, AllTied, Above, AtLeast, Members, Grouped;
    SumSetAtMost(groups.Keys, Places(groups, votes, v, limit), SizeOf(parts));
    UnionSize(parts, groups.Keys);
    SubsetCount(UnionAt(parts, groups.Keys), AllTied(votes, v));
    SubsetCount(Members(groups) * Above(votes, v), Above(votes, v));
  }

  lemma TiedPartsFit(groups: map<Str, set<Str>>, votes: map<Str, int>, v: int, limit: nat)
    requires Grouped(groups, votes)
    ensures var parts := TiedParts(groups, votes, v);
            && parts.Keys == groups.Keys && Apart(parts) && UnionAt(parts, groups.Keys) <= AllTied(votes, v)
            && forall a :: a in groups.Keys ==> Places(groups, votes, v, limit)(a) <= SizeOf(parts)(a)
  {}

  lemma AboveAndTied(votes: map<Str, int>, v: int)
    ensures |AtLeast(votes, v)| == |Above(votes, v)| + |AllTied(votes, v)|
  {
    assert AtLeast(votes, v) == Above(votes, v) + AllTied(votes, v);
    DisjointSize(Above(votes, v), AllTied(votes, v));
  }

  /** Without a tie across the limit the votes are enough for it. */
  lemma NoTieIsEnough(c: Closing, groups: map<Str, set<Str>>, limit: nat)
    requires c.UniqueNames() && PartOf(groups, c) && NoTieAcross(c.Votes(), limit)
    ensures LimitHolds(c, groups, limit)
  {
    PartsAreGrouped(c, groups);
    hide Closing.Votes, PartOf, Reach, Above, AtLeast, Closing.UniqueNames;
    forall x | x in c.Votes() && |Above(c.Votes(), c.Votes()[x])| < limit
      ensures Reach(groups, c.Votes(), c.Votes()[x], limit) <= limit
    {
      ReachAtMost(groups, c.Votes(), c.Votes()[x], limit);
    }
  }

  lemma DistinctVotesNoTie(votes: map<Str, int>, limit: nat)
    requires DistinctVotes(votes)
    ensures NoTieAcross(votes, limit)
  {
    forall x | x in votes ensures |Above(votes, votes[x])| >= limit || |AtLeast(votes, votes[x])| <= limit {
      assert AtLeast(votes, votes[x]) == Above(votes, votes[x]) + {x};
    }
  }

  /** In particular different votes are enough for both limits. */
  lemma DistinctVotesDoNotTie(c: Closing)
    requires c.UniqueNames() && Counted(c.Production()) && DistinctVotes(c.Votes())
    ensures EpochLimitHolds(c) && BonusLimitHolds(c)
  {
    EligibleIsPart(c);
    BonusEligibleIsPart(c);
    hide Closing.Votes, LimitHolds, Closing.UniqueNames, NoTieAcross, PartOf, Eligible, BonusEligible;
    DistinctVotesNoTie(c.Votes(), c.cfg.numDelegatesForEpochReward);
    DistinctVotesNoTie(c.Votes(), c.cfg.numDelegatesForFoundationBonus);
    NoTieIsEnough(c, Eligible(c), c.cfg.numDelegatesForEpochReward);
    NoTieIsEnough(c, BonusEligible(c), c.cfg.numDelegatesForFoundationBonus);
  }

  lemma OneGroupReach(groups: map<Str, set<Str>>, votes: map<Str, int>, v: int, limit: nat, a: Str)
    requires Grouped(groups, votes) && groups.Keys == {a} && |Above(votes, v)| < limit
    ensures Reach(groups, votes, v, limit) <= limit
  {
    var f := Places(groups, votes, v, limit);
    SumSetPick({a}, f, a);
    assert {a} - {a} == {};
    SubsetCount(Members(groups) * Above(votes, v), Above(votes, v));
  }

  /** With a single shared address the limit holds, ties or not: there is only one ranking. */
  lemma OneSharedAddressIsEnough(c: Closing, groups: map<Str, set<Str>>, limit: nat, a: Str)
    requires c.UniqueNames() && PartOf(groups, c) && GroupsOf(c).Keys == {a}
    ensures LimitHolds(c, groups, limit)
  {
    PartsAreGrouped(c, groups);
    assert groups.Keys == {a};
    hide Closing.Votes, GroupsOf, PartOf, Reach, Above, Closing.UniqueNames;
    forall x | x in c.Votes() && |Above(c.Votes(), c.Votes()[x])| < limit
      ensures Reach(groups, c.Votes(), c.Votes()[x], limit) <= limit
    {
      OneGroupReach(groups, c.Votes(), c.Votes()[x], limit, a);
    }
  }

  /* ---------- an epoch that exceeds its limit ---------- */

  function One(b: byte): Str {
    [b]
  }

  function TiedVote(name: Str, addr: Str): VotingRow {
    VotingRow(1, name, [], addr, 5, Portions(0, 0, 0), [])
  }

  function GrantTo(addr: Str): RewardRow {
    RewardRow(1, [], addr, [], Reward(0, 10, 0))
  }

  const ONE_TURN: BlockRow := BlockRow(1, 1, [], [], [1], [], [1])

  /** Two addresses, shared by two candidates each, and four candidates with as many votes. */
  function TwoPairs(cfg: Config): Closing {
    Closing(cfg, 1,
            [TiedVote(One(1), One(11)), TiedVote(One(2), One(11)), TiedVote(One(3), One(12)),
             TiedVote(One(4), One(12))],
            [GrantTo(One(11)), GrantTo(One(12))], [ONE_TURN])
  }

  /** One candidate may get epoch reward, and only the rank decides. */
  predicate OneMayEarn(cfg: Config) {
    cfg.numDelegatesForEpochReward == 1 && cfg.exemptCandidates == {} && cfg.productivityThreshold == 0
  }

  lemma TwoPairsVotes(cfg: Config)
    ensures TwoPairs(cfg).UniqueNames()
    ensures TwoPairs(cfg).Votes() == map[One(1) := 5, One(2) := 5, One(3) := 5, One(4) := 5]
  {
    var c := TwoPairs(cfg);
    DifferentNames();
    assert c.VotesTo(0) == map[];
    assert c.VotesTo(1) == map[One(1) := 5];
    assert c.VotesTo(2) == map[One(1) := 5, One(2) := 5];
    assert c.VotesTo(3) == map[One(1) := 5, One(2) := 5, One(3) := 5];
    assert c.VotesTo(4) == map[One(1) := 5, One(2) := 5, One(3) := 5, One(4) := 5];
  }

  lemma DifferentNames()
    ensures forall i, j :: i != j ==> One(i) != One(j)
  {
    forall i: byte, j: byte | i != j ensures One(i) != One(j) {
      assert One(i)[0] != One(j)[0];
    }
  }

  lemma TwoPairsCandidates(cfg: Config)
    ensures TwoPairs(cfg).Candidates(One(11)) == [One(1), One(2)]
            && TwoPairs(cfg).Candidates(One(12)) == [One(3), One(4)]
    ensures TwoPairs(cfg).Addresses() == {One(11), One(12)}
  {
    var c := TwoPairs(cfg);
    DifferentNames();
    assert c.CandidatesTo(One(11), 1) == [One(1)];
    assert c.CandidatesTo(One(11), 2) == [One(1), One(2)];
    assert c.CandidatesTo(One(11), 3) == [One(1), One(2)];
    assert c.CandidatesTo(One(12), 1) == [];
    assert c.CandidatesTo(One(12), 2) == [];
    assert c.CandidatesTo(One(12), 3) == [One(3)];
    var rows := [GrantTo(One(11)), GrantTo(One(12))];
    assert rows[0].rewardAddress == One(11) && rows[1].rewardAddress == One(12);
  }

  lemma TwoPairsProduction(cfg: Config)
    ensures TwoPairs(cfg).Production() != map[] && Counted(TwoPairs(cfg).Production())
  {
    ProductionCounted(TwoPairs(cfg));
    hide Counted;
    assert TwoPairs(cfg).blocks[0].expectedName in TwoPairs(cfg).Production();
  }

  /** Without exemptions and without a threshold only the rank decides. */
  lemma AllEligible(c: Closing)
    requires OneMayEarn(c.cfg) && Counted(c.Production())
    ensures Eligible(c) == GroupsOf(c)
  {
    hide Closing.Production, GroupsOf;
    forall x ensures Productive(c.cfg, c.Production(), x) {
      if x in c.Production() { NotNegative(c.Production()[x].production, c.Production()[x].expected); }
    }
    forall a | a in GroupsOf(c) ensures Eligible(c)[a] == GroupsOf(c)[a] {}
  }

  lemma TwoPairsConfig(cfg: Config)
    ensures TwoPairs(cfg).cfg == cfg
  {}

  lemma NotNegative(production: int, expected: int)
    requires production >= 0 && expected >= 1
    ensures production * 100 / expected >= 0
  {}

  /** Each pair puts one of its own first, so that two candidates get epoch reward where one may, and the epoch is
      closed with that. */
  lemma TwoPairsExceedLimit(cfg: Config) returns (rankings: Rankings)
    requires OneMayEarn(cfg)
    ensures var c := TwoPairs(cfg);
            && c.UniqueNames() && Counted(c.Production()) && !EpochLimitHolds(c)
            && c.Addresses() <= rankings.Keys && BreaksTies(c, rankings)
            && |EpochEarners(c, rankings)| > cfg.numDelegatesForEpochReward
            && !ClosingFails(c, rankings)
  {
    var c := TwoPairs(cfg);
    TwoPairsProduction(cfg);
    TwoPairsConfig(cfg);
    TwoPairsReachBeyond(cfg);
    hide *;
    rankings := EligibleExceed(c);
    EpochEarnersAreIns(c, rankings);
    OneMayEarnIsOne(cfg);
    var x :| x in EpochEarners(c, rankings) by { SomeElement(EpochEarners(c, rankings)); }
    TwoPairsClosed(cfg, rankings, x);
  }

  lemma OneMayEarnIsOne(cfg: Config)
    requires OneMayEarn(cfg)
    ensures cfg.numDelegatesForEpochReward == 1
  {}

  lemma SomeElement(s: set<Str>)
    requires |s| > 0
    ensures exists x :: x in s
  {}

  lemma EligibleExceed(c: Closing) returns (rankings: Rankings)
    requires c.UniqueNames() && Counted(c.Production()) && !EpochLimitHolds(c)
    ensures BreaksTies(c, rankings) && Eligible(c).Keys <= rankings.Keys
            && |Ins(Eligible(c), rankings, c.cfg.numDelegatesForEpochReward)| > c.cfg.numDelegatesForEpochReward
  {
    EligibleIsPart(c);
    hide Eligible, LimitHolds, Closing.UniqueNames, Closing.Production, BreaksTies, PartOf, Ins;
    rankings := LimitExceeded(c, Eligible(c), c.cfg.numDelegatesForEpochReward);
  }

  lemma TwoPairsClosed(cfg: Config, rankings: Rankings, x: Str)
    requires BreaksTies(TwoPairs(cfg), rankings) && TwoPairs(cfg).Addresses() <= rankings.Keys
    requires Counted(TwoPairs(cfg).Production()) && x in EpochEarners(TwoPairs(cfg), rankings)
    ensures !ClosingFails(TwoPairs(cfg), rankings)
  {
    var c := TwoPairs(cfg);
    TwoPairsVotes(cfg);
    TwoPairsProduction(cfg);
    assert One(1) in c.Votes() && HasVotes(c);
    hide TwoPairs, Closing.Votes, Closing.Candidates, Closing.UniqueNames, Closing.Production, Closing.Addresses, Ranks,
         BreaksTies, NamesIn, EarnsEpochReward, Counted, GivesNothing;
    var a :| a in GroupsOf(c) && x in GroupsOf(c)[a] && EarnsEpochReward(c.cfg, Ranks(rankings[a]), c.Production(), x);
    InGroup(c, a, x);
    TwoPairsSplit(cfg, a, rankings[a], x);
    EarnerCloses(c, rankings, a);
  }

  lemma InGroup(c: Closing, a: Str, x: Str)
    requires a in GroupsOf(c) && x in GroupsOf(c)[a]
    ensures a in c.Addresses() && x in c.Candidates(a)
  {
    hide Closing.Candidates, Closing.Addresses;
  }

  lemma EarnerCloses(c: Closing, rankings: Rankings, a: Str)
    requires HasVotes(c) && c.Production() != map[] && Counted(c.Production())
    requires a in c.Addresses() && a in rankings && !GivesNothing(c.SplitOf(a, rankings[a]))
    ensures !ClosingFails(c, rankings)
  {
    hide GivesNothing, Closing.Addresses, Closing.Candidates, Closing.SplitOf, HasVotes, NeedsSplit, Counted,
         Closing.Production;
  }

  lemma TwoPairsSplit(cfg: Config, a: Str, ranking: seq<Str>, x: Str)
    requires var c := TwoPairs(cfg);
             && Counted(c.Production()) && a in c.Addresses() && x in c.Candidates(a)
             && EarnsEpochReward(c.cfg, Ranks(ranking), c.Production(), x)
    ensures !GivesNothing(TwoPairs(cfg).SplitOf(a, ranking))
  {
    var c := TwoPairs(cfg);
    TwoPairsVotes(cfg);
    TwoPairsCandidates(cfg);
    TwoPairsTotals(cfg);
    hide TwoPairs, Closing.Votes, Closing.Candidates, Closing.Addresses, Closing.UniqueNames, Closing.Production,
         Closing.TotalOf, Ranks, EarnsEpochReward, Counted, GivesNothing;
    PairPaid(c.SplitOf(a, ranking), x);
  }

  lemma TwoPairsTotals(cfg: Config)
    ensures TwoPairs(cfg).TotalOf(One(11)).epochReward == 10 && TwoPairs(cfg).TotalOf(One(12)).epochReward == 10
  {
    DifferentNames();
    var rows, q := TwoPairs(cfg).history, RewardSums(EpochReward);
    assert rows[0].rewardAddress == One(11) && rows[1].rewardAddress == One(12);
    assert TotalTo(rows, q, 1, One(11), 1) == 10 && TotalTo(rows, q, 1, One(12), 1) == 0;
  }

  /** Of two candidates with 5 votes each, one that qualifies gets half of 10 or all of it. */
  lemma PairPaid(s: Split, x: Str)
    requires Counted(s.prod) && |s.names| == 2 && x in s.names && s.total.epochReward == 10
    requires forall i :: 0 <= i < 2 ==> s.names[i] in s.votes && s.votes[s.names[i]] == 5
    requires EarnsEpochReward(s.cfg, s.ranks, s.prod, x)
    ensures !GivesNothing(s)
  {
    hide EarnsEpochReward;
    var w := s.Weight(EpochReward);
    SumOfTwo(s.names, w);
    hide Sum;
    var i :| 0 <= i < 2 && s.names[i] == x;
    assert KindOf(EpochReward, s.total) * w(s.names[i]) == 50;
    assert !KindGivesNothing(s, EpochReward);
  }

  lemma SumOfTwo(names: seq<Str>, f: Str -> int)
    requires |names| == 2
    ensures Sum(names, f) == f(names[0]) + f(names[1])
  {
    assert SumTo(names, f, 1) == SumTo(names, f, 0) + f(names[0]);
    assert SumTo(names, f, 2) == SumTo(names, f, 1) + f(names[1]);
  }

  /** At these votes the eligible candidates reach beyond the limit. */
  lemma EpochLimitBroken(c: Closing, x: Str)
    requires c.UniqueNames() && Counted(c.Production()) && Grouped(Eligible(c), c.Votes()) && x in c.Votes()
    requires |Above(c.Votes(), c.Votes()[x])| < c.cfg.numDelegatesForEpochReward
             < Reach(Eligible(c), c.Votes(), c.Votes()[x], c.cfg.numDelegatesForEpochReward)
    ensures !EpochLimitHolds(c)
  {
    EligibleIsPart(c);
    hide Closing.Votes, Closing.UniqueNames, Closing.Production, Counted, Eligible, PartOf, Reach, Above, Grouped;
  }

  lemma BeyondOne(c: Closing)
    requires OneMayEarn(c.cfg) && c.UniqueNames() && Counted(c.Production()) && Grouped(GroupsOf(c), c.Votes())
    requires One(1) in c.Votes() && c.Votes()[One(1)] == 5 && Above(c.Votes(), 5) == {}
    requires Reach(GroupsOf(c), c.Votes(), 5, 1) > 1
    ensures !EpochLimitHolds(c)
  {
    hide Closing.Votes, Closing.UniqueNames, GroupsOf, Eligible, Reach, Grouped, Closing.Production, Counted,
         EpochLimitHolds, Above;
    AllEligible(c);
    EpochLimitBroken(c, One(1));
  }

  lemma GroupsArePart(c: Closing)
    ensures PartOf(GroupsOf(c), c)
  {
    hide GroupsOf;
  }

  lemma NobodyAboveFive()
    ensures Above(map[One(1) := 5, One(2) := 5, One(3) := 5, One(4) := 5], 5) == {}
    ensures map[One(1) := 5, One(2) := 5, One(3) := 5, One(4) := 5][One(1)] == 5
  {}

  lemma TwoPairsReachBeyond(cfg: Config)
    requires OneMayEarn(cfg) && Counted(TwoPairs(cfg).Production())
    ensures TwoPairs(cfg).UniqueNames() && !EpochLimitHolds(TwoPairs(cfg))
  {
    hide *;
    TwoPairsVotes(cfg);
    TwoPairsConfig(cfg);
    GroupsArePart(TwoPairs(cfg));
    PartsAreGrouped(TwoPairs(cfg), GroupsOf(TwoPairs(cfg)));
    TwoPairsReach(cfg);
    NobodyAboveFive();
    BeyondOne(TwoPairs(cfg));
  }

  lemma TwoPairsReach(cfg: Config)
    requires TwoPairs(cfg).UniqueNames() && Grouped(GroupsOf(TwoPairs(cfg)), TwoPairs(cfg).Votes())
    ensures Reach(GroupsOf(TwoPairs(cfg)), TwoPairs(cfg).Votes(), 5, 1) == 2
  {
    var c := TwoPairs(cfg);
    TwoPairsVotes(cfg);
    TwoPairsCandidates(cfg);
    DifferentNames();
    var groups, votes := GroupsOf(c), c.Votes();
    hide TwoPairs, Closing.Votes, Closing.Candidates, Closing.Addresses, Closing.UniqueNames;
    var f := Places(groups, votes, 5, 1);
    assert Above(votes, 5) == {};
    PairNames(One(1), One(2));
    PairNames(One(3), One(4));
    TwoTied(groups[One(11)], votes, One(1), One(2));
    TwoTied(groups[One(12)], votes, One(3), One(4));
    SumSetPick(groups.Keys, f, One(11));
    assert groups.Keys - {One(11)} == {One(12)};
    SumSetPick({One(12)}, f, One(12));
    EmptiedSet(One(12));
  }

  lemma PairNames(x: Str, y: Str)
    ensures NamesIn([x, y]) == {x, y}
  {
    var names := [x, y];
    assert names[0] == x && names[1] == y;
  }

  lemma EmptiedSet(x: Str)
    ensures {x} - {x} == {}
  {}

  lemma TwoTied(group: set<Str>, votes: map<Str, int>, x: Str, y: Str)
    requires x != y && group <= votes.Keys && x in group && y in group && votes[x] == 5 == votes[y]
    ensures |Tied(group, votes, 5)| >= 2
  {
    SubsetCount({x, y}, Tied(group, votes, 5));
  }
}
