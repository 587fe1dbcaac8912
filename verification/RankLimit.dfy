/** How many candidates behind shared reward addresses can rank within a limit (indexprotocol/rewards/protocol.go).
    Every shared address sorts the candidates anew, so a tie may be broken differently for each. */
module RankLimit {
  import opened Bytes
  import opened Sql
  import opened Ranking
  import opened Rewards

  /* ---------- groups of candidates that are ranked together ---------- */

  /** Disjoint groups of candidates. */
  ghost predicate Grouped(groups: map<Str, set<Str>>, votes: map<Str, int>) {
    && (forall a :: a in groups ==> groups[a] <= votes.Keys)
    && (forall a, b, x :: a in groups && b in groups && x in groups[a] && x in groups[b] ==> a == b)
  }

  /** Each group has a ranking of all candidates of its own. */
  ghost predicate Ranked(groups: map<Str, set<Str>>, votes: map<Str, int>, rankings: Rankings) {
    forall a :: a in groups ==> a in rankings && IsRanking(rankings[a], votes)
  }

  /** The candidates ranked within the limit. */
  function Within(names: seq<Str>, limit: nat): set<Str> {
    set x | x in Ranks(names).Keys && Ranks(names)[x] <= limit
  }

  function Members(groups: map<Str, set<Str>>): set<Str> {
    set a, x | a in groups && x in groups[a] :: x
  }

  /** The candidates of groups that their group's ranking puts within the limit. */
  function Ins(groups: map<Str, set<Str>>, rankings: Rankings, limit: nat): set<Str>
    requires groups.Keys <= rankings.Keys
  {
    set a, x | a in groups && x in groups[a] && x in Within(rankings[a], limit) :: x
  }

  function Tied(group: set<Str>, votes: map<Str, int>, v: int): set<Str>
    requires group <= votes.Keys
  {
    set x | x in group && votes[x] == v
  }

  function Min(a: int, b: int): int {
    if a < b then a else b
  }

  /** How many candidates of a group with v votes can get within the limit: all of them, or as many as there
      are places below the strictly better candidates. */
  ghost function Places(groups: map<Str, set<Str>>, votes: map<Str, int>, v: int, limit: nat): Str -> int
    requires Grouped(groups, votes)
  {
    a => if a in groups then Min(|Tied(groups[a], votes, v)|, limit - |Above(votes, v)|) else 0
  }

  /** The most that can get within the limit if v votes are just enough: the strictly better candidates of
      groups, and the places of every group. */
  ghost function Reach(groups: map<Str, set<Str>>, votes: map<Str, int>, v: int, limit: nat): int
    requires Grouped(groups, votes)
  {
    |Members(groups) * Above(votes, v)| + SumSet(groups.Keys, Places(groups, votes, v, limit))
  }

  /** At no number of votes that can be within the limit do the groups reach beyond it. */
  ghost predicate StaysWithin(groups: map<Str, set<Str>>, votes: map<Str, int>, limit: nat)
    requires Grouped(groups, votes)
  {
    forall c :: c in votes && |Above(votes, votes[c])| < limit ==> Reach(groups, votes, votes[c], limit) <= limit
  }

  /* ---------- sizes of disjoint unions ---------- */

  /** The parts of a map over some of its keys. */
  function UnionAt(parts: map<Str, set<Str>>, s: set<Str>): set<Str>
    requires s <= parts.Keys
  {
    set a, x | a in s && x in parts[a] :: x
  }

  ghost predicate Apart(parts: map<Str, set<Str>>) {
    forall a, b, x :: a in parts && b in parts && x in parts[a] && x in parts[b] ==> a == b
  }

  ghost function SizeOf(parts: map<Str, set<Str>>): Str -> int {
    a => if a in parts then |parts[a]| else 0
  }

  lemma {:induction false} UnionSize(parts: map<Str, set<Str>>, s: set<Str>)
    requires s <= parts.Keys && Apart(parts)
    ensures |UnionAt(parts, s)| == SumSet(s, SizeOf(parts))
    decreases s
  {
    if s == {} {
      assert UnionAt(parts, s) == {};
    } else {
      var a :| a in s;
      UnionSize(parts, s - {a});
      SumSetPick(s, SizeOf(parts), a);
      OneMorePart(parts, s, a);
    }
  }

  lemma OneMorePart(parts: map<Str, set<Str>>, s: set<Str>, a: Str)
    requires s <= parts.Keys && Apart(parts) && a in s
    ensures |UnionAt(parts, s)| == |UnionAt(parts, s - {a})| + |parts[a]|
  {
    assert UnionAt(parts, s) == UnionAt(parts, s - {a}) + parts[a];
    DisjointSize(UnionAt(parts, s - {a}), parts[a]);
  }

  lemma DisjointSize(s: set<Str>, t: set<Str>)
    requires s !! t
    ensures |s + t| == |s| + |t|
  {}

  lemma UnionAtMost(s: set<Str>, t: set<Str>)
    ensures |s + t| <= |s| + |t|
  {
    assert s + t == s + (t - s);
    SubsetCount(t - s, t);
  }

  /* ---------- the limit holds ---------- */

  /** The tied candidates of each group that got within the limit. */
  function TiedIns(groups: map<Str, set<Str>>, votes: map<Str, int>, rankings: Rankings, v: int,
                   limit: nat): map<Str, set<Str>>
    requires Grouped(groups, votes) && groups.Keys <= rankings.Keys
  {
    map a | a in groups :: Tied(groups[a], votes, v) * Within(rankings[a], limit)
  }

  /** The names ranked within the limit are the first ones. */
  lemma WithinIsFirsts(names: seq<Str>, votes: map<Str, int>, limit: nat)
    requires IsRanking(names, votes)
    ensures Within(names, limit) == Firsts(names, if limit < |names| then limit else |names|)
    ensures |Within(names, limit)| <= limit
  {
    hide Ranks, IsRanking;
    RanksBijective(names, votes);
    var n := if limit < |names| then limit else |names|;
    assert IsRanking(names, votes);
    RankedNames(names, votes);
    forall x ensures x in Within(names, limit) <==> x in Firsts(names, n) {
      if x in Firsts(names, n) { var i :| 0 <= i < n && names[i] == x; }
      if x in Within(names, limit) {
        var i :| 0 <= i < |names| && names[i] == x;
      }
    }
    FirstsCount(names, n);
  }

  lemma RankedNames(names: seq<Str>, votes: map<Str, int>)
    requires IsRanking(names, votes)
    ensures forall i, j :: 0 <= i < j < |names| ==> names[i] != names[j]
    ensures forall x :: x in Ranks(names) ==> exists i :: 0 <= i < |names| && names[i] == x
  {}

  /** If one candidate with v votes is within the limit, all strictly better ones are. */
  lemma BetterOnesToo(names: seq<Str>, votes: map<Str, int>, limit: nat, y: Str)
    requires IsRanking(names, votes) && y in votes && y in Within(names, limit)
    ensures Above(votes, votes[y]) <= Within(names, limit)
  {
    hide Ranks;
    forall x | x in Above(votes, votes[y]) ensures x in Within(names, limit) {
      BetterRank(names, votes, x, y);
    }
  }

  lemma BetterRank(names: seq<Str>, votes: map<Str, int>, x: Str, y: Str)
    requires IsRanking(names, votes) && x in votes && y in votes && votes[x] > votes[y]
    ensures x in Ranks(names) && y in Ranks(names) && Ranks(names)[x] < Ranks(names)[y]
  {
    hide Ranks, IsRanking;
    RankBounds(names, votes, x);
    RankBounds(names, votes, y);
    SubsetCount(AtLeast(votes, votes[x]), Above(votes, votes[y]));
  }

  lemma PlacesSuffice(group: set<Str>, names: seq<Str>, votes: map<Str, int>, v: int, limit: nat)
    requires IsRanking(names, votes) && group <= votes.Keys && |Above(votes, v)| < limit
    ensures |Tied(group, votes, v) * Within(names, limit)| <= Min(|Tied(group, votes, v)|, limit - |Above(votes, v)|)
  {
    hide Within, IsRanking, Above, Tied;
    var ins := Tied(group, votes, v) * Within(names, limit);
    SubsetCount(ins, Tied(group, votes, v));
    if y :| y in ins {
      TiedVotes(group, votes, v, y);
      BetterOnesToo(names, votes, limit, y);
      WithinIsFirsts(names, votes, limit);
      DisjointSize(Above(votes, v), ins);
      SubsetCount(Above(votes, v) + ins, Within(names, limit));
    }
  }

  lemma TiedVotes(group: set<Str>, votes: map<Str, int>, v: int, y: Str)
    requires group <= votes.Keys && y in Tied(group, votes, v)
    ensures y in votes && votes[y] == v && Above(votes, v) !! Tied(group, votes, v)
  {}

  lemma InsByVotes(groups: map<Str, set<Str>>, votes: map<Str, int>, rankings: Rankings, v: int, limit: nat)
    requires Grouped(groups, votes) && groups.Keys <= rankings.Keys
    requires forall x :: x in Ins(groups, rankings, limit) ==> x in votes && votes[x] >= v
    ensures var parts := TiedIns(groups, votes, rankings, v, limit);
            && Apart(parts)
            && Ins(groups, rankings, limit) <= Members(groups) * Above(votes, v) + UnionAt(parts, groups.Keys)
  {
    hide Within;
    var parts := TiedIns(groups, votes, rankings, v, limit);
    forall x | x in Ins(groups, rankings, limit) && x !in Above(votes, v) ensures x in UnionAt(parts, groups.Keys) {
      var a :| a in groups && x in groups[a] && x in Within(rankings[a], limit);
      assert x in parts[a];
    }
  }

  lemma AtMostLimit(groups: map<Str, set<Str>>, votes: map<Str, int>, rankings: Rankings, limit: nat)
    requires Grouped(groups, votes) && Ranked(groups, votes, rankings) && groups.Keys <= rankings.Keys
    requires StaysWithin(groups, votes, limit)
    ensures |Ins(groups, rankings, limit)| <= limit
  {
    var ins := Ins(groups, rankings, limit);
    if ins != {} {
      assert ins <= votes.Keys;
      var m := LeastVotes(votes, ins);
      var v := votes[m];
      LeastIsWithin(groups, votes, rankings, limit, m);
      InsByVotes(groups, votes, rankings, v, limit);
      ReachBounds(groups, votes, rankings, v, limit);
    }
  }

  lemma LeastIsWithin(groups: map<Str, set<Str>>, votes: map<Str, int>, rankings: Rankings, limit: nat, m: Str)
    requires Grouped(groups, votes) && Ranked(groups, votes, rankings) && groups.Keys <= rankings.Keys
    requires m in Ins(groups, rankings, limit)
    ensures m in votes && |Above(votes, votes[m])| < limit
  {
    hide Ranks, IsRanking;
    var a :| a in groups && m in groups[a] && m in Within(rankings[a], limit);
    RankBounds(rankings[a], votes, m);
  }

  lemma ReachBounds(groups: map<Str, set<Str>>, votes: map<Str, int>, rankings: Rankings, v: int, limit: nat)
    requires Grouped(groups, votes) && Ranked(groups, votes, rankings) && groups.Keys <= rankings.Keys
             && |Above(votes, v)| < limit
    requires var parts := TiedIns(groups, votes, rankings, v, limit);
             && Apart(parts)
             && Ins(groups, rankings, limit) <= Members(groups) * Above(votes, v) + UnionAt(parts, groups.Keys)
    ensures |Ins(groups, rankings, limit)| <= Reach(groups, votes, v, limit)
  {
    var parts := TiedIns(groups, votes, rankings, v, limit);
    forall a | a in groups.Keys ensures SizeOf(parts)(a) <= Places(groups, votes, v, limit)(a) {
      PlacesSuffice(groups[a], rankings[a], votes, v, limit);
    }
    hide Within, IsRanking, Ins, Members, Grouped, Ranked, TiedIns, Places, SizeOf, UnionAt;
    SubsetCount(Ins(groups, rankings, limit), Members(groups) * Above(votes, v) + UnionAt(parts, groups.Keys));
    UnionAtMost(Members(groups) * Above(votes, v), UnionAt(parts, groups.Keys));
    UnionSize(parts, groups.Keys);
    SumSetAtMost(groups.Keys, SizeOf(parts), Places(groups, votes, v, limit));
  }

  /* ---------- the limit is exceeded ---------- */

  /** Votes that put a group first among those with as many. */
  function Tilted(votes: map<Str, int>, group: set<Str>): map<Str, int> {
    map x | x in votes :: 2 * votes[x] + if x in group then 1 else 0
  }

  lemma TiltedRanks(names: seq<Str>, votes: map<Str, int>, group: set<Str>)
    requires IsRanking(names, Tilted(votes, group))
    ensures IsRanking(names, votes)
  {
    assert Tilted(votes, group).Keys == votes.Keys;
  }

  /** The first names, up to the number of candidates with at least w votes, have at least w votes. */
  lemma FirstsAtLeast(names: seq<Str>, votes: map<Str, int>, w: int, k: nat)
    requires IsRanking(names, votes) && k <= |AtLeast(votes, w)|
    ensures k <= |names| && Firsts(names, k) <= AtLeast(votes, w)
  {
    RanksBijective(names, votes);
    SubsetCount(AtLeast(votes, w), votes.Keys);
    forall x | x in Firsts(names, k) ensures x in AtLeast(votes, w) {
      var i :| 0 <= i < k && names[i] == x;
      FirstIsAtLeast(names, votes, w, i);
    }
  }

  lemma FirstIsAtLeast(names: seq<Str>, votes: map<Str, int>, w: int, i: nat)
    requires IsRanking(names, votes) && i < |names| && i < |AtLeast(votes, w)|
    ensures names[i] in AtLeast(votes, w)
  {
    RanksBijective(names, votes);
    hide Ranks;
    var x := names[i];
    RankBounds(names, votes, x);
    if votes[x] < w {
      SubsetCount(AtLeast(votes, w), Above(votes, votes[x]));
    }
  }

  lemma TiltedAtLeast(votes: map<Str, int>, group: set<Str>, v: int)
    requires group <= votes.Keys
    ensures AtLeast(Tilted(votes, group), 2 * v + 1) == Above(votes, v) + Tied(group, votes, v)
    ensures |AtLeast(Tilted(votes, group), 2 * v + 1)| == |Above(votes, v)| + |Tied(group, votes, v)|
    ensures Above(votes, v) !! Tied(group, votes, v)
  {
    assert AtLeast(Tilted(votes, group), 2 * v + 1) == Above(votes, v) + Tied(group, votes, v);
    DisjointSize(Above(votes, v), Tied(group, votes, v));
  }

  /** Strictly better candidates come first under every ranking. */
  lemma AboveFirst(names: seq<Str>, votes: map<Str, int>, v: int, k: nat)
    requires IsRanking(names, votes) && |Above(votes, v)| <= k <= |names|
    ensures Above(votes, v) <= Firsts(names, k)
  {
    hide IsRanking;
    RankedNames(names, votes);
    forall x | x in Above(votes, v) ensures x in Firsts(names, k) {
      hide Ranks;
      RankBounds(names, votes, x);
      SubsetCount(AtLeast(votes, votes[x]), Above(votes, v));
      RankIsPosition(names, votes, x);
    }
  }

  lemma RankIsPosition(names: seq<Str>, votes: map<Str, int>, x: Str)
    requires IsRanking(names, votes) && x in votes
    ensures x in Ranks(names) && 1 <= Ranks(names)[x] <= |names| && names[Ranks(names)[x] - 1] == x
  {
    hide RanksTo, IsRanking;
    RanksBijective(names, votes);
  }

  /** Some ranking gives a group all the places that its tied candidates can have. */
  lemma FavourGroup(votes: map<Str, int>, group: set<Str>, v: int, limit: nat) returns (names: seq<Str>)
    requires group <= votes.Keys && |Above(votes, v)| < limit
    ensures IsRanking(names, votes) && Above(votes, v) <= Within(names, limit)
    ensures |Tied(group, votes, v) * Within(names, limit)| >= Min(|Tied(group, votes, v)|, limit - |Above(votes, v)|)
  {
    hide *;
    names := TiltedRanking(votes, group);
    var tilted, above, t := Tilted(votes, group), Above(votes, v), Tied(group, votes, v);
    TiltedRanks(names, votes, group);
    TiltedAtLeast(votes, group, v);
    var k := if limit < |above| + |t| then limit else |above| + |t|;
    FirstsAtLeast(names, tilted, 2 * v + 1, k);
    AboveFirst(names, votes, v, k);
    RankedNames(names, votes);
    FirstsCount(names, k);
    WithinIsFirsts(names, votes, limit);
    FirstsAreWithin(names, limit, k);
    FavouredCount(above, t, Firsts(names, k), Within(names, limit));
    MinOfPlaces(|t|, limit, |above|, k);
  }

  lemma TiltedRanking(votes: map<Str, int>, group: set<Str>) returns (names: seq<Str>)
    ensures IsRanking(names, Tilted(votes, group))
  {
    names := RankingExists(Tilted(votes, group), Tilted(votes, group).Keys);
  }

  lemma MinOfPlaces(t: int, limit: int, above: int, k: int)
    requires k == if limit < above + t then limit else above + t
    ensures k - above == Min(t, limit - above)
  {}

  lemma FirstsAreWithin(names: seq<Str>, limit: nat, k: nat)
    requires k <= |names| && k <= limit
    ensures Firsts(names, k) <= Firsts(names, if limit < |names| then limit else |names|)
  {}

  lemma FavouredCount(above: set<Str>, tied: set<Str>, firsts: set<Str>, within: set<Str>)
    requires above <= firsts <= above + tied && firsts <= within && above !! tied
    ensures |tied * within| >= |firsts| - |above|
  {
    assert firsts == above + (tied * firsts);
    DisjointSize(above, tied * firsts);
    SubsetCount(tied * firsts, tied * within);
  }

  /** One such ranking for every group. */
  ghost predicate Favours(groups: map<Str, set<Str>>, votes: map<Str, int>, rankings: Rankings, v: int, limit: nat,
                          s: set<Str>)
    requires Grouped(groups, votes)
  {
    forall a :: a in s && a in groups ==> a in rankings && Favoured(groups[a], votes, rankings[a], v, limit)
  }

  ghost predicate Favoured(group: set<Str>, votes: map<Str, int>, names: seq<Str>, v: int, limit: nat)
    requires group <= votes.Keys
  {
    && IsRanking(names, votes) && Above(votes, v) <= Within(names, limit)
    && |Tied(group, votes, v) * Within(names, limit)| >= Min(|Tied(group, votes, v)|, limit - |Above(votes, v)|)
  }

  lemma {:induction false} FavourAll(groups: map<Str, set<Str>>, votes: map<Str, int>, v: int, limit: nat, s: set<Str>)
    returns (rankings: Rankings)
    requires Grouped(groups, votes) && s <= groups.Keys && |Above(votes, v)| < limit
    ensures rankings.Keys == s && Favours(groups, votes, rankings, v, limit, s)
    decreases s
  {
    hide Favoured;
    rankings := map[];
    if s != {} {
      var a :| a in s;
      var rest := FavourAll(groups, votes, v, limit, s - {a});
      var names := FavourGroup(votes, groups[a], v, limit);
      assert Favoured(groups[a], votes, names, v, limit) by { FavouredBy(groups[a], votes, names, v, limit); }
      rankings := rest[a := names];
    }
  }

  lemma FavouredBy(group: set<Str>, votes: map<Str, int>, names: seq<Str>, v: int, limit: nat)
    requires group <= votes.Keys && IsRanking(names, votes) && Above(votes, v) <= Within(names, limit)
    requires |Tied(group, votes, v) * Within(names, limit)| >= Min(|Tied(group, votes, v)|, limit - |Above(votes, v)|)
    ensures Favoured(group, votes, names, v, limit)
  {}

  lemma FavouredReach(groups: map<Str, set<Str>>, votes: map<Str, int>, rankings: Rankings, v: int, limit: nat)
    requires Grouped(groups, votes) && rankings.Keys == groups.Keys
    requires Favours(groups, votes, rankings, v, limit, groups.Keys)
    ensures |Ins(groups, rankings, limit)| >= Reach(groups, votes, v, limit)
  {
    var parts := TiedIns(groups, votes, rankings, v, limit);
    forall a | a in groups.Keys ensures Places(groups, votes, v, limit)(a) <= SizeOf(parts)(a) {
      assert Favoured(groups[a], votes, rankings[a], v, limit);
    }
    FavouredIns(groups, votes, rankings, v, limit);
    hide Within, IsRanking, Ins, Members, Grouped, Favours, TiedIns, Places, SizeOf, UnionAt;
    SubsetCount(Members(groups) * Above(votes, v) + UnionAt(parts, groups.Keys), Ins(groups, rankings, limit));
    DisjointSize(Members(groups) * Above(votes, v), UnionAt(parts, groups.Keys));
    UnionSize(parts, groups.Keys);
    SumSetAtMost(groups.Keys, Places(groups, votes, v, limit), SizeOf(parts));
  }

  lemma FavouredIns(groups: map<Str, set<Str>>, votes: map<Str, int>, rankings: Rankings, v: int, limit: nat)
    requires Grouped(groups, votes) && rankings.Keys == groups.Keys
    requires Favours(groups, votes, rankings, v, limit, groups.Keys)
    ensures var parts := TiedIns(groups, votes, rankings, v, limit);
            && Apart(parts) && Members(groups) * Above(votes, v) !! UnionAt(parts, groups.Keys)
            && Members(groups) * Above(votes, v) + UnionAt(parts, groups.Keys) <= Ins(groups, rankings, limit)
  {
    hide Within, IsRanking;
    var parts := TiedIns(groups, votes, rankings, v, limit);
    forall x | x in Members(groups) * Above(votes, v) ensures x in Ins(groups, rankings, limit) {
      var a :| a in groups && x in groups[a];
      assert Favoured(groups[a], votes, rankings[a], v, limit);
      assert x in Within(rankings[a], limit);
    }
    forall x | x in UnionAt(parts, groups.Keys) ensures x in Ins(groups, rankings, limit) && x !in Above(votes, v) {
      var a :| a in groups.Keys && x in parts[a];
    }
  }

  /** Whatever the rankings, at most `limit` members of groups get within the limit, exactly when the groups reach
      no further at any number of votes. */
  lemma StaysWithinIff(groups: map<Str, set<Str>>, votes: map<Str, int>, limit: nat)
    requires Grouped(groups, votes)
    ensures StaysWithin(groups, votes, limit)
       <==> forall rankings: Rankings :: groups.Keys <= rankings.Keys && Ranked(groups, votes, rankings)
                               ==> |Ins(groups, rankings, limit)| <= limit
  {
    if StaysWithin(groups, votes, limit) {
      forall rankings: Rankings | groups.Keys <= rankings.Keys && Ranked(groups, votes, rankings)
        ensures |Ins(groups, rankings, limit)| <= limit
      {
        hide *;
        AtMostLimit(groups, votes, rankings, limit);
      }
    } else {
      var rankings := ReachesBeyond(groups, votes, limit);
    }
  }

  lemma ReachesBeyond(groups: map<Str, set<Str>>, votes: map<Str, int>, limit: nat) returns (rankings: Rankings)
    requires Grouped(groups, votes) && !StaysWithin(groups, votes, limit)
    ensures rankings.Keys == groups.Keys && Ranked(groups, votes, rankings) && |Ins(groups, rankings, limit)| > limit
  {
    var c :| c in votes && |Above(votes, votes[c])| < limit && Reach(groups, votes, votes[c], limit) > limit;
    hide Ins, Reach, Above, Within, Tied, IsRanking, Grouped, Favours, Ranked;
    rankings := FavourAll(groups, votes, votes[c], limit, groups.Keys);
    FavouredReach(groups, votes, rankings, votes[c], limit);
    FavouredRanked(groups, votes, rankings, votes[c], limit);
  }

  lemma FavouredRanked(groups: map<Str, set<Str>>, votes: map<Str, int>, rankings: Rankings, v: int, limit: nat)
    requires Grouped(groups, votes) && rankings.Keys == groups.Keys
    requires Favours(groups, votes, rankings, v, limit, groups.Keys)
    ensures Ranked(groups, votes, rankings)
  {
    hide IsRanking, Within, Tied, Above;
    forall a | a in groups ensures IsRanking(rankings[a], votes) {
      assert Favoured(groups[a], votes, rankings[a], v, limit);
    }
  }
}
