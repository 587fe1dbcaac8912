/** Reading all staking buckets and candidates page by page (indexprotocol/protocol.go). */
module Paging {
  import opened Schema

  const READ_BUCKETS_LIMIT: nat := 30000
  const READ_CANDIDATES_LIMIT: nat := 20000
  const UINT32_MODULUS: nat := 0x1_0000_0000

  /** What the chain answers to a request for `size` entries from `offset` on. */
  function Page<T>(server: seq<T>, offset: nat, size: nat): (page: seq<T>)
    ensures |page| <= size
  {
    if offset >= |server| then []
    else if offset + size > |server| then server[offset..]
    else server[offset..offset + size]
  }

  /** The first n entries that pass the filter, in their order. */
  function KeptTo<T>(server: seq<T>, keep: T -> bool, n: nat): seq<T>
    requires n <= |server|
  {
    if n == 0 then [] else KeptTo(server, keep, n - 1) + if keep(server[n - 1]) then [server[n - 1]] else []
  }

  function Kept<T>(server: seq<T>, keep: T -> bool): seq<T> {
    KeptTo(server, keep, |server|)
  }

  predicate Picks(ps: seq<nat>, j: nat) {
    j in ps
  }

  /** Positions below n, in increasing order, of all entries that pass the filter. */
  ghost predicate PositionsKept<T>(ps: seq<nat>, server: seq<T>, keep: T -> bool, n: nat)
    requires n <= |server|
  {
    && (forall k :: 0 <= k < |ps| ==> ps[k] < n && keep(server[ps[k]]))
    && (forall k, l :: 0 <= k < l < |ps| ==> ps[k] < ps[l])
    && (forall j: nat :: j < n && keep(server[j]) ==> Picks(ps, j))
  }

  lemma PicksMore(ps: seq<nat>, x: nat)
    ensures forall j :: Picks(ps + [x], j) <==> Picks(ps, j) || j == x
  {
    assert (ps + [x])[|ps|] == x;
  }

  lemma OneMoreKept<T>(ps: seq<nat>, server: seq<T>, keep: T -> bool, n: nat)
    requires 0 < n <= |server| && PositionsKept(ps, server, keep, n - 1)
    ensures PositionsKept(if keep(server[n - 1]) then ps + [n - 1] else ps, server, keep, n)
  {
    if keep(server[n - 1]) {
      PicksMore(ps, n - 1);
      hide Picks;
      var more := ps + [n - 1];
      forall k | 0 <= k < |more| ensures more[k] < n && keep(server[more[k]]) {
        assert more[k] == if k < |ps| then ps[k] else n - 1;
      }
      forall k, l | 0 <= k < l < |more| ensures more[k] < more[l] {
        assert more[k] == ps[k] && more[l] == if l < |ps| then ps[l] else n - 1;
      }
    }
  }

  lemma KeptStep<T>(server: seq<T>, keep: T -> bool, n: nat)
    requires 0 < n <= |server|
    ensures KeptTo(server, keep, 0) == []
    ensures KeptTo(server, keep, n)
            == if keep(server[n - 1]) then KeptTo(server, keep, n - 1) + [server[n - 1]]
              else KeptTo(server, keep, n - 1)
  {}

  /** The entries are those of the server at the positions. */
  ghost predicate TakenAt<T>(kept: seq<T>, server: seq<T>, ps: seq<nat>) {
    |kept| == |ps| && forall k :: 0 <= k < |ps| ==> ps[k] < |server| && kept[k] == server[ps[k]]
  }

  lemma TakenMore<T>(kept: seq<T>, server: seq<T>, ps: seq<nat>, j: nat)
    requires TakenAt(kept, server, ps) && j < |server|
    ensures TakenAt(kept + [server[j]], server, ps + [j])
  {}

  lemma NoneKept<T>(server: seq<T>, keep: T -> bool)
    ensures PositionsKept([], server, keep, 0) && TakenAt(KeptTo(server, keep, 0), server, [])
  {}

  /** Nothing else is kept, nothing is kept twice, and the order stays. */
  lemma {:induction false} KeptByPosition<T>(server: seq<T>, keep: T -> bool, n: nat) returns (ps: seq<nat>)
    requires n <= |server|
    ensures PositionsKept(ps, server, keep, n) && TakenAt(KeptTo(server, keep, n), server, ps)
  {
    hide *;
    if n == 0 {
      ps := [];
      NoneKept(server, keep);
    } else {
      ps := KeptByPosition(server, keep, n - 1);
      OneMoreKept(ps, server, keep, n);
      KeptStep(server, keep, n);
      TakenMore(KeptTo(server, keep, n - 1), server, ps, n - 1);
      if keep(server[n - 1]) { ps := ps + [n - 1]; }
    }
  }

  /** An unstaked bucket is dropped. */
  predicate Staked(bucket: Bucket) {
    !(bucket.unstakeStartTime > bucket.stakeStartTime)
  }

  /** A candidate whose self-stake is "0" is dropped. */
  predicate SelfStaked(candidate: Candidate) {
    candidate.selfStakingTokens != [0x30]
  }

  /** The offset of a round, before it is cut to 32 bits. */
  function Start(i: nat, limit: nat): nat {
    i * limit
  }

  lemma NextStart(i: nat, limit: nat)
    ensures Start(i + 1, limit) == Start(i, limit) + limit && Start(0, limit) == 0
  {}

  lemma StartMonotone(i: nat, j: nat, limit: nat)
    requires i <= j
    ensures Start(i, limit) <= Start(j, limit)
  {}

  /** The longest list that can be read to its end before the uint32 offset of the next page wraps around. */
  predicate FitsOffsets(length: nat, limit: nat)
    requires limit > 0
  {
    length < Start(PagesBeforeWrap(limit), limit)
  }

  /** The number of the first page whose offset does not fit in 32 bits. */
  function PagesBeforeWrap(limit: nat): (q: nat)
    requires limit > 0
    ensures q > 0 && Start(q - 1, limit) < UINT32_MODULUS <= Start(q, limit)
  {
    (UINT32_MODULUS + limit - 1) / limit
  }

  /* ---------- what the loop reads ---------- */

  /** The page of round i: its offset is a 32-bit product. */
  function PageAt<T>(server: seq<T>, limit: nat, i: nat): seq<T> {
    Page(server, Start(i, limit) % UINT32_MODULUS, limit)
  }

  /** What the first n rounds collect. */
  function PagesTo<T>(server: seq<T>, limit: nat, keep: T -> bool, n: nat): seq<T> {
    if n == 0 then [] else PagesTo(server, limit, keep, n - 1) + Kept(PageAt(server, limit, n - 1), keep)
  }

  /** The first n pages are full. */
  ghost predicate AllFull<T>(server: seq<T>, limit: nat, n: nat) {
    forall i :: 0 <= i < n ==> |PageAt(server, limit, i)| == limit
  }

  /** The loop ends after n rounds: the last page is its first short one. */
  ghost predicate EndsAfter<T>(server: seq<T>, limit: nat, n: nat) {
    n > 0 && |PageAt(server, limit, n - 1)| < limit && AllFull(server, limit, n - 1)
  }

  /** One round's inner loop. */
  method KeepPage<T>(page: seq<T>, keep: T -> bool, before: seq<T>) returns (all: seq<T>)
    ensures all == before + Kept(page, keep)
  {
    all := before;
    for j := 0 to |page|
      invariant all == before + KeptTo(page, keep, j)
    {
      if keep(page[j]) { all := all + [page[j]]; }
    }
  }

  /** The loop of GetAllStakingBuckets and GetAllStakingCandidates: pages are requested until a short one
      arrives. For every list that FitsOffsets admits, the offset never wraps, the loop ends, and the result is
      the whole list filtered in order, also when the length is a multiple of the page size. */
  method ReadAll<T>(server: seq<T>, limit: nat, keep: T -> bool) returns (all: seq<T>, ghost rounds: nat)
    requires 0 < limit < UINT32_MODULUS && FitsOffsets(|server|, limit)
    ensures EndsAfter(server, limit, rounds) && all == PagesTo(server, limit, keep, rounds)
    ensures all == Kept(server, keep)
  {
    hide Start, Page, KeptTo, Kept, FitsOffsets;
    all := [];
    var i := 0;
    NextStart(0, limit);
    while true
      invariant 0 <= i && Start(i, limit) <= |server|
      invariant all == PagesTo(server, limit, keep, i) && AllFull(server, limit, i)
      decreases |server| - Start(i, limit)
    {
      OffsetFits(i, |server|, limit);
      PageRead(server, limit, i);
      NextStart(i, limit);
      var page := Page(server, Start(i, limit) % UINT32_MODULUS, limit);
      all := KeepPage(page, keep, all);
      if |page| < limit { break; }
      i := i + 1;
    }
    rounds := i + 1;
    AllPagesRead(server, limit, keep, i);
  }

  /** While the list fits, no offset that is reached wraps. */
  lemma OffsetFits(i: nat, length: nat, limit: nat)
    requires 0 < limit && FitsOffsets(length, limit) && Start(i, limit) <= length
    ensures Start(i, limit) < UINT32_MODULUS && i < PagesBeforeWrap(limit)
  {
    hide Start;
    var q := PagesBeforeWrap(limit);
    if i >= q { StartMonotone(q, i, limit); } else { StartMonotone(i, q - 1, limit); }
  }

  lemma {:induction false} KeptOfPart<T>(server: seq<T>, keep: T -> bool, from: nat, part: seq<T>, n: nat)
    requires from + |part| <= |server| && part == server[from..from + |part|] && n <= |part|
    ensures KeptTo(server, keep, from + n) == KeptTo(server, keep, from) + KeptTo(part, keep, n)
  {
    if n == 0 {
      assert KeptTo(server, keep, from) + [] == KeptTo(server, keep, from);
    } else {
      KeptOfPart(server, keep, from, part, n - 1);
      assert part[n - 1] == server[from + n - 1];
    }
  }

  /** Where the part of a round ends. */
  function EndOf(length: nat, start: nat, limit: nat): nat {
    if start + limit > length then length else start + limit
  }

  /** A round whose offset does not wrap reads the next part of the list. */
  lemma PageRead<T>(server: seq<T>, limit: nat, i: nat)
    requires 0 < limit && Start(i, limit) < UINT32_MODULUS && Start(i, limit) <= |server|
    ensures PageAt(server, limit, i) == server[Start(i, limit)..EndOf(|server|, Start(i, limit), limit)]
  {
    hide Start;
  }

  /** Such a round keeps what the next part of the list holds. */
  lemma RoundKept<T>(server: seq<T>, limit: nat, keep: T -> bool, i: nat)
    requires 0 < limit && Start(i, limit) < UINT32_MODULUS && Start(i, limit) <= |server|
    ensures Start(i, limit) + |PageAt(server, limit, i)| == EndOf(|server|, Start(i, limit), limit)
    ensures KeptTo(server, keep, EndOf(|server|, Start(i, limit), limit))
            == KeptTo(server, keep, Start(i, limit)) + Kept(PageAt(server, limit, i), keep)
  {
    hide Start, KeptTo;
    PageRead(server, limit, i);
    hide PageAt;
    var page := PageAt(server, limit, i);
    KeptOfPart(server, keep, Start(i, limit), page, |page|);
  }

  /** The rounds before the wrap read the list from its beginning. */
  lemma {:induction false} PagesRead<T>(server: seq<T>, limit: nat, keep: T -> bool, i: nat)
    requires 0 < limit && i <= PagesBeforeWrap(limit) && Start(i, limit) <= |server|
    ensures PagesTo(server, limit, keep, i) == KeptTo(server, keep, Start(i, limit))
  {
    hide *;
    NextStart(0, limit);
    if i == 0 {
      NothingKept(server, limit, keep);
    } else {
      NextStart(i - 1, limit);
      StartMonotone(i - 1, PagesBeforeWrap(limit) - 1, limit);
      PagesRead(server, limit, keep, i - 1);
      RoundKept(server, limit, keep, i - 1);
      NextPages(server, limit, keep, i - 1);
      FullRound(|server|, Start(i - 1, limit), limit);
    }
  }

  lemma FullRound(length: nat, start: nat, limit: nat)
    requires start + limit <= length
    ensures EndOf(length, start, limit) == start + limit
  {}

  lemma NextPages<T>(server: seq<T>, limit: nat, keep: T -> bool, i: nat)
    ensures PagesTo(server, limit, keep, i + 1)
            == PagesTo(server, limit, keep, i) + Kept(PageAt(server, limit, i), keep)
  {
    hide Kept, PageAt;
  }

  lemma NothingKept<T>(server: seq<T>, limit: nat, keep: T -> bool)
    ensures KeptTo(server, keep, 0) == [] && PagesTo(server, limit, keep, 0) == []
  {}

  lemma AllPagesRead<T>(server: seq<T>, limit: nat, keep: T -> bool, i: nat)
    requires 0 < limit && FitsOffsets(|server|, limit) && Start(i, limit) <= |server| < Start(i, limit) + limit
    ensures PagesTo(server, limit, keep, i + 1) == Kept(server, keep)
  {
    hide Start, FitsOffsets, KeptTo;
    OffsetFits(i, |server|, limit);
    PagesRead(server, limit, keep, i);
    RoundKept(server, limit, keep, i);
    hide PageAt;
  }

  /** GetAllStakingBuckets. */
  method GetAllStakingBuckets(server: seq<Bucket>) returns (all: seq<Bucket>)
    requires FitsOffsets(|server|, READ_BUCKETS_LIMIT)
    ensures all == Kept(server, Staked)
  {
    ghost var rounds;
    all, rounds := ReadAll(server, READ_BUCKETS_LIMIT, Staked);
  }

  /** GetAllStakingCandidates. */
  method GetAllStakingCandidates(server: seq<Candidate>) returns (all: seq<Candidate>)
    requires FitsOffsets(|server|, READ_CANDIDATES_LIMIT)
    ensures all == Kept(server, SelfStaked)
  {
    ghost var rounds;
    all, rounds := ReadAll(server, READ_CANDIDATES_LIMIT, SelfStaked);
  }

  /* ---------- lists that are too long ---------- */

  /** The loop ends with the list filtered in order. */
  ghost predicate ReadsRight<T>(server: seq<T>, limit: nat, keep: T -> bool) {
    exists n :: EndsAfter(server, limit, n) && PagesTo(server, limit, keep, n) == Kept(server, keep)
  }

  predicate Numbered(server: seq<int>) {
    forall i :: 0 <= i < |server| ==> server[i] == i
  }

  /** Whatever the list and the filter, the loop ends with the right result, exactly for the lengths that
      FitsOffsets admits. */
  lemma FitsOffsetsIff(length: nat, limit: nat)
    requires 0 < limit < UINT32_MODULUS
    ensures FitsOffsets(length, limit)
       <==> forall server: seq<int>, keep: int -> bool :: |server| == length ==> ReadsRight(server, limit, keep)
  {
    hide FitsOffsets, Start, PagesTo, EndsAfter, Kept;
    if FitsOffsets(length, limit) {
      forall server: seq<int>, keep: int -> bool | |server| == length ensures ReadsRight(server, limit, keep) {
        FittingReadsRight(server, limit, keep);
      }
    } else {
      var server := seq(length, i requires 0 <= i < length => i);
      var keep := (x: int) => true;
      forall n | EndsAfter(server, limit, n) ensures PagesTo(server, limit, keep, n) != Kept(server, keep) {
        WrappedReadsWrong(server, limit, keep, n);
      }
      assert !ReadsRight(server, limit, keep);
    }
  }

  lemma FittingReadsRight<T>(server: seq<T>, limit: nat, keep: T -> bool)
    requires 0 < limit < UINT32_MODULUS && FitsOffsets(|server|, limit)
    ensures ReadsRight(server, limit, keep)
  {
    var i := LastRound(|server|, limit);
    hide Start, FitsOffsets, PagesTo, Kept;
    forall j | 0 <= j < i ensures |PageAt(server, limit, j)| == limit {
      NextStart(j, limit);
      StartMonotone(j + 1, i, limit);
      OffsetFits(j, |server|, limit);
      PageRead(server, limit, j);
    }
    OffsetFits(i, |server|, limit);
    PageRead(server, limit, i);
    AllPagesRead(server, limit, keep, i);
    assert EndsAfter(server, limit, i + 1);
  }

  lemma LastRound(length: nat, limit: nat) returns (i: nat)
    requires 0 < limit
    ensures Start(i, limit) <= length < Start(i, limit) + limit
  {
    i := length / limit;
  }

  /** A longer list is not read right: the first offset that wraps around delivers its beginning once more. */
  lemma WrappedReadsWrong(server: seq<int>, limit: nat, keep: int -> bool, n: nat)
    requires 0 < limit < UINT32_MODULUS && !FitsOffsets(|server|, limit) && Numbered(server)
    requires (forall x :: keep(x)) && EndsAfter(server, limit, n)
    ensures PagesTo(server, limit, keep, n) != Kept(server, keep)
  {
    var q := PagesBeforeWrap(limit);
    FullBeforeWrap(server, limit, n);
    WrappedPage(server, limit, keep);
    PagesGrow(server, limit, keep, q + 1, n);
    AllKept(server, keep, |server|);
    hide Start, PagesTo, EndsAfter, FitsOffsets, KeptTo;
    var at := Start(q, limit);
    assert PagesTo(server, limit, keep, n)[at] == at - UINT32_MODULUS;
  }

  /** Round q rereads the list from an offset below the page size. */
  lemma WrappedPage(server: seq<int>, limit: nat, keep: int -> bool)
    requires 0 < limit < UINT32_MODULUS && !FitsOffsets(|server|, limit) && Numbered(server) && forall x :: keep(x)
    ensures var q := PagesBeforeWrap(limit);
            && |PagesTo(server, limit, keep, q + 1)| > Start(q, limit)
            && PagesTo(server, limit, keep, q + 1)[Start(q, limit)] == Start(q, limit) - UINT32_MODULUS
  {
    var q := PagesBeforeWrap(limit);
    NextStart(q - 1, limit);
    PagesRead(server, limit, keep, q);
    AllKept(server, keep, Start(q, limit));
    var page := PageAt(server, limit, q);
    AllKept(page, keep, |page|);
    WrappedStart(server, limit);
    hide Start, KeptTo, PageAt;
    assert PagesTo(server, limit, keep, q + 1) == server[..Start(q, limit)] + page[..|page|];
  }

  lemma WrappedStart(server: seq<int>, limit: nat)
    requires 0 < limit < UINT32_MODULUS && !FitsOffsets(|server|, limit) && Numbered(server)
    ensures var page := PageAt(server, limit, PagesBeforeWrap(limit));
            |page| > 0 && page[0] == Start(PagesBeforeWrap(limit), limit) - UINT32_MODULUS
  {
    var q := PagesBeforeWrap(limit);
    NextStart(q - 1, limit);
    hide Start;
    assert Start(q, limit) % UINT32_MODULUS == Start(q, limit) - UINT32_MODULUS;
  }

  lemma FullBeforeWrap<T>(server: seq<T>, limit: nat, n: nat)
    requires 0 < limit < UINT32_MODULUS && !FitsOffsets(|server|, limit) && EndsAfter(server, limit, n)
    ensures n > PagesBeforeWrap(limit)
  {
    var q := PagesBeforeWrap(limit);
    if n <= q {
      hide Start;
      NextStart(n - 1, limit);
      StartMonotone(n - 1, q - 1, limit);
      StartMonotone(n, q, limit);
    }
  }

  lemma {:induction false} AllKept(server: seq<int>, keep: int -> bool, n: nat)
    requires n <= |server| && forall x :: keep(x)
    ensures KeptTo(server, keep, n) == server[..n]
  {
    if n > 0 { AllKept(server, keep, n - 1); }
  }

  lemma {:induction false} PagesGrow<T>(server: seq<T>, limit: nat, keep: T -> bool, k: nat, n: nat)
    requires k <= n
    ensures PagesTo(server, limit, keep, k) <= PagesTo(server, limit, keep, n)
    decreases n - k
  {
    hide Kept, PageAt;
    if k < n { PagesGrow(server, limit, keep, k, n - 1); }
  }
}
