/** Ordering names by score, highest first: sort.Slice in indexprotocol/rewards/protocol.go and the final
    sort of indexprotocol/votings/probation.go. */
module Ranking {
  import opened Bytes

  /** Lists every name of the set once and never puts fewer votes before more. Ties may go either way. */
  ghost predicate SortedList(names: seq<Str>, votes: map<Str, int>, s: set<Str>) {
    && s <= votes.Keys
    && Lists(names, s)
    && (forall i, j :: 0 <= i < j < |names| ==> names[i] != names[j] && votes[names[i]] >= votes[names[j]])
  }

  ghost predicate Lists(names: seq<Str>, s: set<Str>) {
    && (forall i :: 0 <= i < |names| ==> names[i] in s)
    && (forall c :: c in s ==> c in names)
  }

  ghost predicate IsRanking(names: seq<Str>, votes: map<Str, int>) {
    SortedList(names, votes, votes.Keys)
  }

  /** Lists the keys of the map, in whatever order it yields them, sorted by decreasing votes. */
  method SortByVotes(votes: map<Str, int>) returns (names: seq<Str>)
    ensures IsRanking(names, votes)
  {
    names := [];
    var rest := votes.Keys;
    while rest != {}
      invariant rest <= votes.Keys && SortedList(names, votes, votes.Keys - rest)
      decreases rest
    {
      var c :| c in rest;
      var p := 0;
      while p < |names| && votes[names[p]] >= votes[c]
        invariant p <= |names| && forall i :: 0 <= i < p ==> votes[names[i]] >= votes[c]
      {
        p := p + 1;
      }
      InsertedAt(names, votes, votes.Keys - rest, p, c);
      assert votes.Keys - (rest - {c}) == votes.Keys - rest + {c};
      rest := rest - {c};
      names := names[..p] + [c] + names[p..];
    }
    assert votes.Keys - rest == votes.Keys;
  }

  lemma InsertedAt(names: seq<Str>, votes: map<Str, int>, s: set<Str>, p: nat, c: Str)
    requires SortedList(names, votes, s) && c in votes && c !in s && p <= |names|
    requires forall i :: 0 <= i < p ==> votes[names[i]] >= votes[c]
    requires p < |names| ==> votes[names[p]] < votes[c]
    ensures SortedList(names[..p] + [c] + names[p..], votes, s + {c})
  {
    hide SortedList;
    InsertedSorted(names, names[..p] + [c] + names[p..], votes, s, p, c);
  }

  lemma InsertedSorted(names: seq<Str>, all: seq<Str>, votes: map<Str, int>, s: set<Str>, p: nat, c: Str)
    requires SortedList(names, votes, s) && c in votes && c !in s && p <= |names|
    requires forall i :: 0 <= i < p ==> votes[names[i]] >= votes[c]
    requires p < |names| ==> votes[names[p]] < votes[c]
    requires |all| == |names| + 1 && all[p] == c
    requires forall i :: 0 <= i < p ==> all[i] == names[i]
    requires forall i :: p <= i < |names| ==> all[i + 1] == names[i]
    ensures SortedList(all, votes, s + {c})
  {
    InsertedLists(names, all, s, p, c);
    forall i, j | 0 <= i < j < |all| ensures all[i] != all[j] && votes[all[i]] >= votes[all[j]] {
      InsertedPair(names, all, votes, s, p, c, i, j);
    }
  }

  lemma InsertedLists(names: seq<Str>, all: seq<Str>, s: set<Str>, p: nat, c: Str)
    requires Lists(names, s) && p <= |names| && |all| == |names| + 1 && all[p] == c
    requires forall i :: 0 <= i < p ==> all[i] == names[i]
    requires forall i :: p <= i < |names| ==> all[i + 1] == names[i]
    ensures Lists(all, s + {c})
  {
    forall x | x in s + {c} ensures x in all {
      if x == c {
        assert all[p] == x;
      } else {
        var i :| 0 <= i < |names| && names[i] == x;
        assert all[if i < p then i else i + 1] == x;
      }
    }
    forall i | 0 <= i < |all| ensures all[i] in s + {c} {
      if i > p { assert all[i - 1 + 1] == names[i - 1]; }
    }
  }

  lemma InsertedPair(names: seq<Str>, all: seq<Str>, votes: map<Str, int>, s: set<Str>, p: nat, c: Str, i: nat, j: nat)
    requires SortedList(names, votes, s) && c in votes && c !in s && p <= |names|
    requires forall k :: 0 <= k < p ==> votes[names[k]] >= votes[c]
    requires p < |names| ==> votes[names[p]] < votes[c]
    requires |all| == |names| + 1 && all[p] == c
    requires forall k :: 0 <= k < p ==> all[k] == names[k]
    requires forall k :: p <= k < |names| ==> all[k + 1] == names[k]
    requires i < j < |all|
    ensures all[i] in votes && all[j] in votes && all[i] != all[j] && votes[all[i]] >= votes[all[j]]
  {
    if j == p {
      assert names[i] in s;
    } else if j < p {
      assert names[i] in s && names[j] in s;
    } else {
      assert all[j - 1 + 1] == names[j - 1] && names[j - 1] in s;
      if i < p {
        assert names[i] in s;
      } else if i > p {
        assert all[i - 1 + 1] == names[i - 1] && names[i - 1] in s;
      } else {
        assert names[p] in s;
        assert p == j - 1 || votes[names[p]] >= votes[names[j - 1]];
      }
    }
  }

  /** The rank of the first n names: candidateRank of breakdownRewards. */
  function RanksTo(names: seq<Str>, n: nat): (m: map<Str, nat>)
    requires n <= |names|
    ensures forall c :: c in m <==> exists i :: 0 <= i < n && names[i] == c
    ensures forall c :: c in m ==> 1 <= m[c] <= n && names[m[c] - 1] == c
  {
    if n == 0 then map[] else RanksTo(names, n - 1)[names[n - 1] := n]
  }

  function Ranks(names: seq<Str>): map<Str, nat> {
    RanksTo(names, |names|)
  }

  /* ---------- what a rank means ---------- */

  function Above(votes: map<Str, int>, v: int): set<Str> {
    set c | c in votes.Keys && votes[c] > v
  }

  function AtLeast(votes: map<Str, int>, v: int): set<Str> {
    set c | c in votes.Keys && votes[c] >= v
  }

  function Firsts(names: seq<Str>, n: nat): set<Str>
    requires n <= |names|
  {
    set i | 0 <= i < n :: names[i]
  }

  lemma {:induction false} FirstsCount(names: seq<Str>, n: nat)
    requires n <= |names| && forall i, j :: 0 <= i < j < |names| ==> names[i] != names[j]
    ensures |Firsts(names, n)| == n
  {
    if n > 0 {
      FirstsCount(names, n - 1);
      assert Firsts(names, n) == Firsts(names, n - 1) + {names[n - 1]};
    }
  }

  lemma SubsetCount(s: set<Str>, t: set<Str>)
    requires s <= t
    ensures |s| <= |t|
  {
    assert t == s + (t - s);
  }

  /** Ranks are a bijection between the candidates and 1..n. */
  lemma RanksBijective(names: seq<Str>, votes: map<Str, int>)
    requires IsRanking(names, votes)
    ensures Ranks(names).Keys == votes.Keys && |votes| == |names|
    ensures forall i :: 0 <= i < |names| ==> names[i] in Ranks(names) && Ranks(names)[names[i]] == i + 1
  {
    hide RanksTo;
    FirstsCount(names, |names|);
    assert Firsts(names, |names|) == votes.Keys;
    forall i | 0 <= i < |names|
      ensures names[i] in Ranks(names) && Ranks(names)[names[i]] == i + 1
    {
      var r := Ranks(names)[names[i]];
      assert names[r - 1] == names[i];
    }
  }

  /** The rank of a candidate lies between one more than the number of candidates with strictly more votes and
      the number of candidates with at least as many, whatever the order of ties. */
  lemma RankBounds(names: seq<Str>, votes: map<Str, int>, c: Str)
    requires IsRanking(names, votes) && c in votes
    ensures c in Ranks(names)
    ensures |Above(votes, votes[c])| + 1 <= Ranks(names)[c] <= |AtLeast(votes, votes[c])|
  {
    hide RanksTo;
    var k := Ranks(names)[c];
    NotBelow(names, votes, c, k);
    NotAbove(names, votes, c, k);
  }

  lemma NotBelow(names: seq<Str>, votes: map<Str, int>, c: Str, k: nat)
    requires IsRanking(names, votes) && 1 <= k <= |names| && names[k - 1] == c
    ensures |Above(votes, votes[c])| + 1 <= k
  {
    forall d | d in Above(votes, votes[c]) ensures d in Firsts(names, k - 1) {
      var i :| 0 <= i < |names| && names[i] == d;
    }
    FirstsCount(names, k - 1);
    SubsetCount(Above(votes, votes[c]), Firsts(names, k - 1));
  }

  lemma NotAbove(names: seq<Str>, votes: map<Str, int>, c: Str, k: nat)
    requires IsRanking(names, votes) && 1 <= k <= |names| && names[k - 1] == c
    ensures k <= |AtLeast(votes, votes[c])|
  {
    forall d | d in Firsts(names, k) ensures d in AtLeast(votes, votes[c]) {
      var i :| 0 <= i < k && names[i] == d;
    }
    FirstsCount(names, k);
    SubsetCount(Firsts(names, k), AtLeast(votes, votes[c]));
  }

  ghost predicate DistinctVotes(votes: map<Str, int>) {
    forall c, d :: c in votes && d in votes && c != d ==> votes[c] != votes[d]
  }

  /** Without ties the rank is 1 + the number of candidates with strictly more votes, in every order in which
      the map may be visited: every call ranks alike. */
  lemma RankExact(names: seq<Str>, votes: map<Str, int>, c: Str)
    requires IsRanking(names, votes) && c in votes && DistinctVotes(votes)
    ensures c in Ranks(names) && Ranks(names)[c] == |Above(votes, votes[c])| + 1
  {
    hide Ranks, IsRanking;
    RankBounds(names, votes, c);
    assert AtLeast(votes, votes[c]) == Above(votes, votes[c]) + {c};
  }

  lemma {:induction false} LeastVotes(votes: map<Str, int>, s: set<Str>) returns (m: Str)
    requires s != {} && s <= votes.Keys
    ensures m in s && forall c :: c in s ==> votes[c] >= votes[m]
    decreases s
  {
    var x :| x in s;
    m := x;
    if s == {x} { return; }
    var n := LeastVotes(votes, s - {x});
    if votes[n] < votes[x] { m := n; }
    forall c | c in s ensures votes[c] >= votes[m] {
      if c != x { assert c in s - {x}; }
    }
  }

  lemma {:induction false} RankingExists(votes: map<Str, int>, s: set<Str>) returns (names: seq<Str>)
    requires s <= votes.Keys
    ensures SortedList(names, votes, s)
    decreases s
  {
    names := [];
    if s != {} {
      var m := LeastVotes(votes, s);
      var rest := RankingExists(votes, s - {m});
      names := rest + [m];
      forall c | c in s ensures c in names {
        if c != m { assert c in rest; }
      }
    }
  }
}
