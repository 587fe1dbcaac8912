/** When closing an epoch fails for want of anybody to credit: rebuildAccountRewardTable then sends an INSERT
    with an empty VALUES list, and the block can never be indexed (indexprotocol/rewards/protocol.go). */
module ClosingFailures {
  import opened Bytes
  import opened Schema
  import opened Ranking
  import opened RewardSplit
  import opened Rewards

  /** An address with a sole candidate always yields a row: the candidate is credited with all of it. */
  lemma SoleCandidateCredits(c: Closing, a: Str, rankings: Rankings, m: map<Str, Reward>)
    requires c.epoch > 0 && a in c.Addresses() && |c.Candidates(a)| == 1 && CreditsAll(c, rankings, m)
    ensures c.Candidates(a)[0] in m && m[c.Candidates(a)[0]] == c.TotalOf(a)
    ensures !CreditsNothing(c, rankings)
  {
    hide Closing.Candidates, Closing.TotalOf, Closing.Production, Closing.Addresses, RanksAll, Closing.SplitOf;
    var parts := Pays(c, rankings, c.Addresses());
    assert a in parts && c.Candidates(a)[0] in parts[a];
  }

  /** Over all ways to break ties: the epoch can end without a single row exactly when every address, by a
      ranking of its own, can credit nobody. */
  lemma EmptyInsertPossibleIff(c: Closing)
    ensures (exists rankings :: CreditsNothing(c, rankings))
            <==> forall a :: a in c.Addresses() ==> MayCreditNobody(c, a)
  {
    if rankings :| CreditsNothing(c, rankings) {
      hide *;
      EachMayCreditNobody(c, rankings);
    }
    if forall a :: a in c.Addresses() ==> MayCreditNobody(c, a) {
      hide *;
      var rankings := NobodyCredited(c);
    }
  }

  lemma EachMayCreditNobody(c: Closing, rankings: Rankings)
    requires CreditsNothing(c, rankings)
    ensures forall a :: a in c.Addresses() ==> MayCreditNobody(c, a)
  {
    hide GivesNothing, Counted, IsRanking, Closing.Addresses, Closing.Candidates, Closing.Votes, Closing.Production;
    forall a | a in c.Addresses() ensures MayCreditNobody(c, a) {
      assert IsRanking(rankings[a], c.Votes()) && GivesNothing(c.SplitOf(a, rankings[a]));
    }
  }

  lemma NobodyCredited(c: Closing) returns (rankings: Rankings)
    requires forall a :: a in c.Addresses() ==> MayCreditNobody(c, a)
    ensures CreditsNothing(c, rankings)
  {
    ProductionCounted(c);
    rankings := ChooseRankings(c, c.Addresses());
    hide GivesNothing, Counted, IsRanking, Closing.Addresses, Closing.SplitOf, Closing.Candidates, Closing.Votes,
         Closing.Production;
  }

  /** The address credits nobody under this ranking. */
  ghost predicate Stingy(c: Closing, a: Str, ranking: seq<Str>) {
    && |c.Candidates(a)| != 1 && Counted(c.Production())
    && IsRanking(ranking, c.Votes()) && GivesNothing(c.SplitOf(a, ranking))
  }

  lemma {:induction false} ChooseRankings(c: Closing, s: set<Str>) returns (rankings: Rankings)
    requires forall a :: a in s ==> MayCreditNobody(c, a)
    ensures rankings.Keys == s && forall a :: a in s ==> Stingy(c, a, rankings[a])
    decreases s
  {
    hide GivesNothing, Counted, IsRanking, Closing.Candidates;
    rankings := map[];
    if s != {} {
      var a :| a in s;
      var rest := ChooseRankings(c, s - {a});
      assert MayCreditNobody(c, a);
      var ranking :| IsRanking(ranking, c.Votes()) && GivesNothing(c.SplitOf(a, ranking));
      rankings := rest[a := ranking];
    }
  }

  /* ---------- without ties ---------- */

  /** The rank read off the votes: one more than the number of candidates with strictly more. */
  function PlainRanks(votes: map<Str, int>): map<Str, nat> {
    map x | x in votes :: |Above(votes, votes[x])| + 1
  }

  lemma RanksArePlain(ranking: seq<Str>, votes: map<Str, int>)
    requires IsRanking(ranking, votes) && DistinctVotes(votes)
    ensures Ranks(ranking) == PlainRanks(votes)
  {
    hide Ranks, IsRanking, Above, DistinctVotes;
    RanksBijective(ranking, votes);
    forall x | x in votes ensures x in Ranks(ranking) && Ranks(ranking)[x] == |Above(votes, votes[x])| + 1 {
      hide *;
      RankExact(ranking, votes, x);
    }
  }

  /** The split of an address, from the voting rows, the reward rows and the block rows of the epoch alone. */
  function PlainSplit(c: Closing, a: Str): Split {
    Split(c.cfg, c.Candidates(a), PlainRanks(c.Votes()), c.Votes(), c.Production(), c.TotalOf(a))
  }

  /** The tables give every address of the epoch no sole candidate and a split in which, of every kind, nobody
      earns anything or every share rounds to 0. */
  ghost predicate NobodyToCredit(c: Closing)
    requires Counted(c.Production())
  {
    forall a :: a in c.Addresses() ==> |c.Candidates(a)| != 1 && GivesNothing(PlainSplit(c, a))
  }

  /** If all votes differ, whether the INSERT has rows can be read off the tables before the call. */
  lemma EmptyInsertIff(c: Closing, rankings: Rankings)
    requires DistinctVotes(c.Votes()) && Counted(c.Production())
    requires c.Addresses() <= rankings.Keys && RanksAll(c, rankings, c.Addresses())
    ensures CreditsNothing(c, rankings) <==> NobodyToCredit(c)
  {
    forall a | a in c.Addresses() && |c.Candidates(a)| != 1
      ensures c.SplitOf(a, rankings[a]) == PlainSplit(c, a)
    {
      hide Closing.Addresses, Closing.Production, Closing.Candidates, Closing.TotalOf, Closing.Votes, PlainRanks, Ranks,
           DistinctVotes;
      RanksArePlain(rankings[a], c.Votes());
    }
    hide GivesNothing, Closing.SplitOf, PlainSplit;
  }

  /* ---------- an epoch that can never be closed ---------- */

  /** Rewards were granted, and however ties are broken nobody is credited with any. */
  ghost predicate CannotCredit(c: Closing) {
    && c.epoch > 0 && c.Addresses() != {}
    && forall rankings: Rankings :: c.Addresses() <= rankings.Keys && RanksAll(c, rankings, c.Addresses())
                                    ==> CreditsNothing(c, rankings)
  }

  /** Then closing the epoch fails whenever it is tried. */
  lemma CannotCreditFails(c: Closing, rankings: Rankings)
    requires CannotCredit(c) && c.Addresses() <= rankings.Keys && RanksAll(c, rankings, c.Addresses())
    ensures ClosingFails(c, rankings)
  {
    hide CreditsNothing, RanksAll, Closing.Addresses;
  }

  /** If all votes differ, the tables decide it. */
  lemma CannotCreditIff(c: Closing)
    requires DistinctVotes(c.Votes()) && Counted(c.Production())
    ensures CannotCredit(c) <==> c.epoch > 0 && c.Addresses() != {} && NobodyToCredit(c)
  {
    hide CreditsNothing, RanksAll, Closing.Addresses, NobodyToCredit, Closing.Production, Closing.Votes, Counted,
         DistinctVotes;
    var possible := SomeRankings(c, c.Addresses());
    EmptyInsertIff(c, possible);
    forall rankings: Rankings | c.Addresses() <= rankings.Keys && RanksAll(c, rankings, c.Addresses())
      ensures CreditsNothing(c, rankings) <==> NobodyToCredit(c)
    {
      EmptyInsertIff(c, rankings);
    }
  }

  lemma {:induction false} SomeRankings(c: Closing, s: set<Str>) returns (rankings: Rankings)
    ensures rankings.Keys == s && RanksAll(c, rankings, s)
    decreases s
  {
    hide IsRanking, Closing.Candidates, Closing.Votes;
    rankings := map[];
    if s != {} {
      var a :| a in s;
      var rest := SomeRankings(c, s - {a});
      var ranking := RankingOf(c.Votes());
      rankings := rest[a := ranking];
    }
  }

  lemma RankingOf(votes: map<Str, int>) returns (ranking: seq<Str>)
    ensures IsRanking(ranking, votes)
  {
    ranking := RankingExists(votes, votes.Keys);
  }

  /** So it is if rewards were granted to addresses without any voting row only. */
  lemma UnvotedCannotCredit(c: Closing)
    requires c.epoch > 0 && c.Addresses() != {} && forall a :: a in c.Addresses() ==> c.Candidates(a) == []
    ensures CannotCredit(c)
  {
    ProductionCounted(c);
    hide RanksAll, Closing.Addresses, Closing.Production, Counted, GivesNothing;
    forall rankings: Rankings | c.Addresses() <= rankings.Keys && RanksAll(c, rankings, c.Addresses())
      ensures CreditsNothing(c, rankings)
    {
      forall a | a in c.Addresses() ensures GivesNothing(c.SplitOf(a, rankings[a])) {
        NoNamesNoGifts(c.SplitOf(a, rankings[a]));
      }
    }
  }

  lemma NoNamesNoGifts(s: Split)
    requires Counted(s.prod) && s.names == []
    ensures GivesNothing(s)
  {}
}
