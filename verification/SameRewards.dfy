/** When account_reward depends on the base rows alone: if the votes of an epoch are pairwise different, the order in
    which the database lists its rows and the order in which maps are visited do not show in its credits
    (indexprotocol/rewards/protocol.go). */
module SameRewards {
  import opened Bytes
  import opened Schema
  import opened Ranking
  import opened RewardSplit
  import opened Rewards
  import opened RewardView
  import opened ClosingFailures

  /** The two tell of the same epoch; only the order of the voting rows may differ. */
  ghost predicate SameBase(c: Closing, d: Closing) {
    && c.cfg == d.cfg && c.epoch == d.epoch && c.blocks == d.blocks
    && (forall row :: row in c.voting <==> row in d.voting)
    && c.Addresses() == d.Addresses() && forall a :: c.TotalOf(a) == d.TotalOf(a)
  }

  /* ---------- votes and candidates ---------- */

  lemma {:induction false} VotedFor(c: Closing, n: nat, x: Str)
    requires n <= |c.voting| && x in c.VotesTo(n)
    ensures exists row :: row in c.voting && row.epoch == c.epoch && row.delegateName == x
  {
    var v := c.voting[n - 1];
    if v.epoch == c.epoch && v.delegateName == x {
      assert v in c.voting;
    } else {
      VotedFor(c, n - 1, x);
    }
  }

  lemma VotesOfRow(c: Closing, row: VotingRow)
    requires c.UniqueNames() && row in c.voting && row.epoch == c.epoch
    ensures row.delegateName in c.Votes() && c.Votes()[row.delegateName] == row.totalWeightedVotes
  {
    VotesAre(c, |c.voting|);
    hide Closing.VotesTo, Closing.UniqueNames;
    var i :| 0 <= i < |c.voting| && c.voting[i] == row;
  }

  lemma SameVote(c: Closing, d: Closing, x: Str)
    requires SameBase(c, d) && c.UniqueNames() && d.UniqueNames() && x in c.Votes()
    ensures x in d.Votes() && d.Votes()[x] == c.Votes()[x]
  {
    VotedFor(c, |c.voting|, x);
    hide Closing.Votes, Closing.UniqueNames, Closing.Addresses, Closing.TotalOf;
    var row :| row in c.voting && row.epoch == c.epoch && row.delegateName == x;
    VotesOfRow(c, row);
    VotesOfRow(d, row);
  }

  lemma SameVotes(c: Closing, d: Closing)
    requires SameBase(c, d) && SameBase(d, c) && c.UniqueNames() && d.UniqueNames()
    ensures c.Votes() == d.Votes()
  {
    hide Closing.Votes, Closing.UniqueNames, SameBase;
    forall x | x in c.Votes() ensures x in d.Votes() && d.Votes()[x] == c.Votes()[x] { SameVote(c, d, x); }
    forall x | x in d.Votes() ensures x in c.Votes() { SameVote(d, c, x); }
  }

  lemma CandidateRow(c: Closing, a: Str, x: Str)
    requires c.UniqueNames()
    ensures x in c.Candidates(a)
       <==> exists row :: row in c.voting && row.epoch == c.epoch && row.rewardAddress == a && row.delegateName == x
  {
    CandidatesAre(c, a, |c.voting|);
    hide Closing.CandidatesTo, Closing.UniqueNames;
    if x in c.Candidates(a) {
      var i :| 0 <= i < |c.voting| && c.voting[i].epoch == c.epoch && c.voting[i].rewardAddress == a
               && c.voting[i].delegateName == x;
      assert c.voting[i] in c.voting;
    }
    if row :| row in c.voting && row.epoch == c.epoch && row.rewardAddress == a && row.delegateName == x {
      var i :| 0 <= i < |c.voting| && c.voting[i] == row;
    }
  }

  lemma SameCandidates(c: Closing, d: Closing, a: Str)
    requires SameBase(c, d) && c.UniqueNames() && d.UniqueNames()
    ensures forall x :: x in c.Candidates(a) <==> x in d.Candidates(a)
  {
    hide Closing.Candidates, Closing.UniqueNames, Closing.Addresses, Closing.TotalOf;
    forall x ensures x in c.Candidates(a) <==> x in d.Candidates(a) {
      CandidateRow(c, a, x);
      CandidateRow(d, a, x);
    }
  }

  /* ---------- splits ---------- */

  lemma {:induction false} NamesCount(names: seq<Str>, n: nat)
    requires n <= |names| && Distinct(names)
    ensures |Names(names, n)| == n
  {
    if n > 0 {
      NamesCount(names, n - 1);
      assert Names(names, n) == Names(names, n - 1) + {names[n - 1]};
    }
  }

  lemma SameNames(names: seq<Str>, names': seq<Str>)
    requires Distinct(names) && Distinct(names') && forall x :: x in names <==> x in names'
    ensures Names(names, |names|) == Names(names', |names'|) && |names| == |names'|
  {
    forall x ensures x in Names(names, |names|) <==> x in names {}
    forall x ensures x in Names(names', |names'|) <==> x in names' {}
    NamesCount(names, |names|);
    NamesCount(names', |names'|);
  }

  /** The order of the candidates does not show in their shares. */
  lemma SameSplit(s: Split, t: Split)
    requires Counted(s.prod) && t == s.(names := t.names)
    requires Distinct(s.names) && Distinct(t.names) && forall x :: x in s.names <==> x in t.names
    ensures s.Rewards() == t.Rewards()
  {
    SameNames(s.names, t.names);
    forall kind ensures s.Weight(kind) == t.Weight(kind) && Sum(s.names, s.Weight(kind)) == Sum(t.names, t.Weight(kind))
    {
      SameWeight(s, t, kind);
      SumOverNames(s.names, s.Weight(kind), |s.names|);
      SumOverNames(t.names, t.Weight(kind), |t.names|);
    }
    hide Split.Weight, Sum, Distinct, Names;
    forall x ensures s.RewardOf(x) == t.RewardOf(x) {
      assert forall kind :: s.Paid(kind, x) == t.Paid(kind, x);
    }
    hide Split.RewardOf;
  }

  lemma SameWeight(s: Split, t: Split, kind: RewardKind)
    requires Counted(s.prod) && t == s.(names := t.names)
    ensures s.Weight(kind) == t.Weight(kind)
  {}

  /** With different votes an address pays the same, whatever the order of rows and of ties. */
  lemma SamePayOf(c: Closing, d: Closing, a: Str, ranking: seq<Str>, ranking': seq<Str>)
    requires SameBase(c, d) && SameBase(d, c) && c.UniqueNames() && d.UniqueNames() && DistinctVotes(c.Votes())
    requires Counted(c.Production()) && Counted(d.Production())
    requires |c.Candidates(a)| != 1 ==> IsRanking(ranking, c.Votes())
    requires |d.Candidates(a)| != 1 ==> IsRanking(ranking', d.Votes())
    ensures c.PayOf(a, ranking) == d.PayOf(a, ranking')
  {
    SameVotes(c, d);
    SameCandidates(c, d, a);
    CandidatesDistinct(c, a);
    CandidatesDistinct(d, a);
    SameNames(c.Candidates(a), d.Candidates(a));
    SameFigures(c, d, a);
    hide Closing.Votes, Closing.Candidates, Closing.UniqueNames, Closing.Production, Closing.TotalOf, SameBase, Ranks,
         IsRanking, DistinctVotes, Distinct, Names, Split.Rewards, Counted;
    if |c.Candidates(a)| != 1 {
      RanksArePlain(ranking, c.Votes());
      RanksArePlain(ranking', c.Votes());
      SameSplit(c.SplitOf(a, ranking), d.SplitOf(a, ranking'));
    } else {
      assert c.Candidates(a)[0] in d.Candidates(a);
    }
  }

  lemma SameFigures(c: Closing, d: Closing, a: Str)
    requires SameBase(c, d)
    ensures c.cfg == d.cfg && c.Production() == d.Production() && c.TotalOf(a) == d.TotalOf(a)
  {
    hide Closing.Addresses, Closing.TotalOf;
  }

  /* ---------- credits ---------- */

  lemma SameUnion(m: map<Str, Reward>, m': map<Str, Reward>, parts: map<Str, map<Str, Reward>>)
    requires UnionOf(m, parts) && UnionOf(m', parts)
    ensures m == m'
  {
    forall x | x in m ensures x in m' && m'[x] == m[x] {
      var a :| a in parts && x in parts[a];
    }
    forall x | x in m' ensures x in m {
      var a :| a in parts && x in parts[a];
    }
  }

  lemma SameCredited(c: Closing, d: Closing, rankings: Rankings, rankings': Rankings, m: map<Str, Reward>,
                     m': map<Str, Reward>)
    requires SameBase(c, d) && SameBase(d, c) && c.UniqueNames() && d.UniqueNames() && DistinctVotes(c.Votes())
    requires c.epoch > 0 && c.Addresses() != {} && CreditsAll(c, rankings, m) && CreditsAll(d, rankings', m')
    ensures m == m'
  {
    hide Closing.Votes, Closing.Candidates, Closing.UniqueNames, Closing.Production, Closing.TotalOf, Closing.PayOf,
         IsRanking, DistinctVotes, Counted, UnionOf;
    var s := c.Addresses();
    forall a | a in s ensures c.PayOf(a, rankings[a]) == d.PayOf(a, rankings'[a]) {
      SamePayOf(c, d, a, rankings[a], rankings'[a]);
    }
    assert Pays(c, rankings, s) == Pays(d, rankings', s);
    SameUnion(m, m', Pays(c, rankings, s));
  }

  /** Two databases with the same base rows credit an epoch with different votes alike. */
  lemma SameSettlement(c: Closing, d: Closing, m: map<Str, Reward>, m': map<Str, Reward>)
    requires SameBase(c, d) && c.UniqueNames() && d.UniqueNames() && DistinctVotes(c.Votes()) && c.epoch > 0
    requires Settled(c, m) && Settled(d, m')
    ensures m == m'
  {
    BaseIsSymmetric(c, d);
    hide SameBase, Closing.Votes, Closing.UniqueNames, DistinctVotes, CreditsAll, Closing.Addresses;
    if c.Addresses() != {} {
      var rankings :| CreditsAll(c, rankings, m);
      var rankings' :| CreditsAll(d, rankings', m');
      SameCredited(c, d, rankings, rankings', m, m');
    }
  }

  lemma BaseIsSymmetric(c: Closing, d: Closing)
    requires SameBase(c, d)
    ensures SameBase(d, c) && c.Addresses() == d.Addresses() && c.epoch == d.epoch
  {
    hide Closing.Addresses, Closing.TotalOf;
  }
}
