/** How the turns of an epoch are shared out: the rotation in HandleBlock (indexprotocol/blocks/protocol.go)
    over the epoch lengths of epochctx/epochctx.go, as seen in productivity_history. */
module Rotation {
  import opened Bytes
  import opened Wrappers
  import opened Schema
  import opened Sql
  import opened EpochContext
  import opened Blocks
  import opened DelegateName
  import opened Paging

  /** How many heights below n are the turn of position r in a list of d. */
  function Turns(n: nat, d: nat, r: nat): nat
    requires d > 0
  {
    if n == 0 then 0 else Turns(n - 1, d, r) + if (n - 1) % d == r then 1 else 0
  }

  lemma {:induction false} TurnsOfFirstRound(n: nat, d: nat, r: nat)
    requires r < d && n <= d
    ensures Turns(n, d, r) == if r < n then 1 else 0
  {
    if n > 0 {
      TurnsOfFirstRound(n - 1, d, r);
      DivUnique(n - 1, d, 0, n - 1);
    }
  }

  /** Any d consecutive heights hold exactly one turn of each position, wherever they start. */
  lemma {:induction false} TurnsOfOneRound(n: nat, d: nat, r: nat)
    requires r < d
    ensures Turns(n + d, d, r) == Turns(n, d, r) + 1
  {
    if n == 0 {
      TurnsOfFirstRound(d, d, r);
    } else {
      TurnsOfOneRound(n - 1, d, r);
      DivUnique(n - 1 + d, d, (n - 1) / d + 1, (n - 1) % d);
    }
  }

  lemma {:induction false} TurnsOfRounds(n: nat, k: nat, d: nat, r: nat)
    requires r < d
    ensures d * k >= 0 && Turns(n + d * k, d, r) == Turns(n, d, r) + k
  {
    if k > 0 {
      TurnsOfRounds(n, k - 1, d, r);
      assert d * k == d * (k - 1) + d;
      TurnsOfOneRound(n + d * (k - 1), d, r);
    }
  }

  /* ---------- the heights of an epoch ---------- */

  lemma EpochRange(e: EpochCtx, h: nat, n: nat)
    requires e.Divisors() && e.ForkAligned() && h > 0 && n > 0
    ensures e.GetEpochNumber(h) == n <==> e.GetEpochHeight(n) <= h < e.GetEpochHeight(n + 1)
  {
    AlignedEncloses(e, h);
    var m := e.GetEpochNumber(h);
    if m < n {
      if m + 1 < n { HeightStrictlyMonotone(e, m + 1, n); }
    } else if n < m {
      if n + 1 < m { HeightStrictlyMonotone(e, n + 1, m); }
    }
  }

  /** All blocks of an epoch are written with the delegates known at its first height. */
  lemma {:induction false} SameDelegatesInEpoch(cfg: Config, chain: Chain, h: nat, n: nat)
    requires Sound(cfg) && h > 0 && n > 0 && cfg.epochCtx.GetEpochNumber(h) == n
    ensures cfg.epochCtx.GetEpochHeight(n) > 0
    ensures DelegatesAt(cfg, chain, h) == DelegatesAt(cfg, chain, cfg.epochCtx.GetEpochHeight(n))
  {
    EpochRange(cfg.epochCtx, h, n);
    HeightStrictlyMonotone(cfg.epochCtx, 0, n);
    if h > cfg.epochCtx.GetEpochHeight(n) {
      EpochRange(cfg.epochCtx, h - 1, n);
      SameDelegatesInEpoch(cfg, chain, h - 1, n);
      SameDelegates(cfg, chain, h - 1);
    }
  }

  /** The epoch's delegates: D operators with pairwise distinct names. */
  ghost predicate FullRoster(ds: Delegates, d: nat) {
    && |ds.active| == d
    && forall i, j :: 0 <= i < j < d ==> NameOf(ds.names, ds.active[i]) != NameOf(ds.names, ds.active[j])
  }

  /** Position r is expected at a height of the epoch exactly when the height is its turn. */
  lemma ExpectedAt(cfg: Config, chain: Chain, h: nat, n: nat, ds: Delegates, r: nat)
    requires Sound(cfg) && h > 0 && n > 0 && cfg.epochCtx.GetEpochNumber(h) == n
    requires chain.block(h).height == h
    requires ds == DelegatesAt(cfg, chain, h) && FullRoster(ds, cfg.epochCtx.numDelegates) && r < |ds.active|
    ensures RowAt(cfg, chain, h).epoch == n
    ensures RowAt(cfg, chain, h).expectedName == NameOf(ds.names, ds.active[r]) <==> h % |ds.active| == r
  {}

  function Clamp(x: nat, a: nat, b: nat): nat {
    if x < a then a else if x > b then b else x
  }

  /** Row i is the row of height i + 1; exactly the heights from a to b - 1 belong to epoch n. */
  ghost predicate SpansEpoch(history: seq<BlockRow>, n: nat, a: nat, b: nat) {
    && 0 < a <= b
    && forall i :: 0 <= i < |history| ==> (history[i].epoch == n <==> a <= i + 1 < b)
  }

  /** Within the epoch, the name is expected at the turns of position r of d. */
  ghost predicate TakesTurns(history: seq<BlockRow>, n: nat, name: Str, d: nat, r: nat)
    requires d > 0
  {
    forall i :: 0 <= i < |history| && history[i].epoch == n ==> (history[i].expectedName == name <==> (i + 1) % d == r)
  }

  /** COUNT of expected turns over the first rows, as a difference of Turns. */
  lemma {:induction false} CountIsTurns(history: seq<BlockRow>, n: nat, a: nat, b: nat, name: Str, d: nat, r: nat,
                                        k: nat)
    requires d > 0 && k <= |history| && SpansEpoch(history, n, a, b) && TakesTurns(history, n, name, d, r)
    ensures TotalTo(history, EXPECTED, n, name, k) == Turns(Clamp(k + 1, a, b), d, r) - Turns(a, d, r)
  {
    if k > 0 {
      CountIsTurns(history, n, a, b, name, d, r, k - 1);
      assert history[k - 1].epoch == n <==> a <= k < b;
    }
  }

  lemma HistorySpansEpoch(cfg: Config, chain: Chain, history: seq<BlockRow>, last: nat, n: nat)
    requires Sound(cfg) && n > 0 && HistoryUpTo(cfg, chain, history, last)
    ensures SpansEpoch(history, n, cfg.epochCtx.GetEpochHeight(n), cfg.epochCtx.GetEpochHeight(n + 1))
  {
    HeightStrictlyMonotone(cfg.epochCtx, 0, n);
    HeightStrictlyMonotone(cfg.epochCtx, n, n + 1);
    forall i | 0 <= i < |history|
      ensures history[i].epoch == n
         <==> cfg.epochCtx.GetEpochHeight(n) <= i + 1 < cfg.epochCtx.GetEpochHeight(n + 1)
    {
      EpochRange(cfg.epochCtx, i + 1, n);
      EpochOfRow(cfg, chain, i + 1);
    }
  }

  lemma EpochOfRow(cfg: Config, chain: Chain, h: nat)
    requires Sound(cfg) && h > 0
    ensures RowAt(cfg, chain, h).epoch == cfg.epochCtx.GetEpochNumber(h)
  {}

  lemma HistoryTakesTurns(cfg: Config, chain: Chain, history: seq<BlockRow>, last: nat, n: nat, ds: Delegates, r: nat)
    requires Sound(cfg) && n > 0 && HistoryUpTo(cfg, chain, history, last)
    requires forall h :: chain.block(h).height == h
    requires cfg.epochCtx.GetEpochHeight(n) > 0 && ds == DelegatesAt(cfg, chain, cfg.epochCtx.GetEpochHeight(n))
    requires FullRoster(ds, cfg.epochCtx.numDelegates) && r < |ds.active|
    ensures TakesTurns(history, n, NameOf(ds.names, ds.active[r]), |ds.active|, r)
  {
    hide RowAt, DelegatesAt, FullRoster;
    forall i | 0 <= i < |history| && history[i].epoch == n
      ensures history[i].expectedName == NameOf(ds.names, ds.active[r]) <==> (i + 1) % |ds.active| == r
    {
      EpochOfRow(cfg, chain, i + 1);
      SameDelegatesInEpoch(cfg, chain, i + 1, n);
      ExpectedAt(cfg, chain, i + 1, n, ds, r);
    }
  }

  /** The delegates of an epoch: those known at its first height. */
  function Roster(cfg: Config, chain: Chain, n: nat): Delegates
    requires Sound(cfg) && n > 0
  {
    HeightStrictlyMonotone(cfg.epochCtx, 0, n);
    DelegatesAt(cfg, chain, cfg.epochCtx.GetEpochHeight(n))
  }

  /** In every closed epoch with a full roster, productivity_history expects each delegate to produce exactly
      numSubEpochs blocks before the fork epoch and numSubEpochsDardanelles blocks from it on, whatever the
      start height of the epoch. */
  lemma FairRotation(cfg: Config, chain: Chain, t: BlocksTables, last: nat, n: nat, r: nat)
    requires Sound(cfg) && cfg.epochCtx.dardanellesOn && last > 0
    requires forall h :: chain.block(h).height == h
    requires HistoryUpTo(cfg, chain, t.history, last) && Views(t, cfg.epochCtx.GetEpochNumber(last))
    requires 1 <= n < cfg.epochCtx.GetEpochNumber(last)
    requires FullRoster(Roster(cfg, chain, n), cfg.epochCtx.numDelegates) && r < cfg.epochCtx.numDelegates
    ensures var ds := Roster(cfg, chain, n);
            var p := (n, NameOf(ds.names, ds.active[r]));
            && p in t.productivity
            && t.productivity[p].expected
               == if n < cfg.epochCtx.ForkEpoch() then cfg.epochCtx.numSubEpochs
                 else cfg.epochCtx.numSubEpochsDardanelles
  {
    var ctx := cfg.epochCtx;
    var k := if n < ctx.ForkEpoch() then ctx.numSubEpochs else ctx.numSubEpochsDardanelles;
    var ds := Roster(cfg, chain, n);
    LastPastEpoch(ctx, last, n);
    EpochLength(ctx, n);
    HistorySpansEpoch(cfg, chain, t.history, last, n);
    HistoryTakesTurns(cfg, chain, t.history, last, n, ds, r);
    hide *;
    FairCount(t, ctx.GetEpochNumber(last), n, ctx.GetEpochHeight(n), ctx.GetEpochHeight(n + 1),
              NameOf(ds.names, ds.active[r]), ctx.numDelegates, r, k);
  }

  lemma FairCount(t: BlocksTables, open: nat, n: nat, a: nat, b: nat, name: Str, d: nat, r: nat, k: nat)
    requires Views(t, open) && 1 <= n < open && r < d && k > 0
    requires SpansEpoch(t.history, n, a, b) && TakesTurns(t.history, n, name, d, r)
    requires b == a + d * k && b <= |t.history|
    ensures (n, name) in t.productivity && t.productivity[(n, name)].expected == k
  {
    var rows := t.history;
    CountIsTurns(rows, n, a, b, name, d, r, |rows|);
    TurnsOfRounds(a, k, d, r);
    assert Total(rows, EXPECTED, n, name) == k;
    if name !in Keys(rows, EXPECTED, n) { TotalOfNone(rows, EXPECTED, n, name, |rows|); }
    var p := (n, name);
    assert p in t.productivity <==> name in Keys(rows, EXPECTED, n);
  }

  lemma LastPastEpoch(ctx: EpochCtx, last: nat, n: nat)
    requires ctx.Divisors() && ctx.ForkAligned() && last > 0 && n < ctx.GetEpochNumber(last)
    ensures ctx.GetEpochHeight(n + 1) <= last
  {
    AlignedEncloses(ctx, last);
    if n + 1 < ctx.GetEpochNumber(last) { HeightStrictlyMonotone(ctx, n + 1, ctx.GetEpochNumber(last)); }
  }

  /* ---------- all expected turns of an epoch ---------- */

  lemma {:induction false} RowsInEpoch(history: seq<BlockRow>, n: nat, a: nat, b: nat, k: nat)
    requires k <= |history| && SpansEpoch(history, n, a, b)
    ensures EpochSumTo(history, EXPECTED, n, k) == Clamp(k + 1, a, b) - a
  {
    if k > 0 {
      RowsInEpoch(history, n, a, b, k - 1);
      assert history[k - 1].epoch == n <==> a <= k < b;
    }
  }

  function ExpectedIn(t: BlocksTables, n: nat): Str -> int {
    name => if (n, name) in t.productivity then t.productivity[(n, name)].expected else 0
  }

  /** In every closed epoch the expected turns add up to the length of the epoch, full roster or not. */
  lemma ExpectedAddUpToLength(cfg: Config, chain: Chain, t: BlocksTables, last: nat, n: nat)
    requires Sound(cfg) && cfg.epochCtx.dardanellesOn && last > 0
    requires HistoryUpTo(cfg, chain, t.history, last) && Views(t, cfg.epochCtx.GetEpochNumber(last))
    requires 1 <= n < cfg.epochCtx.GetEpochNumber(last)
    ensures SumSet(NamesAt(t.productivity, n), ExpectedIn(t, n))
            == if n < cfg.epochCtx.ForkEpoch() then cfg.epochCtx.OldLength() else cfg.epochCtx.NewLength()
  {
    var s := NamesAt(t.productivity, n);
    var total := GroupTotal(t.history, EXPECTED, n, last);
    HistorySpansEpoch(cfg, chain, t.history, last, n);
    RowsInEpoch(t.history, n, cfg.epochCtx.GetEpochHeight(n), cfg.epochCtx.GetEpochHeight(n + 1), last);
    LastPastEpoch(cfg.epochCtx, last, n);
    EpochLength(cfg.epochCtx, n);
    RecountedNames(t, cfg.epochCtx.GetEpochNumber(last), n);
    GroupsAddUp(t.history, EXPECTED, n, s, last);
    SumSetEqual(s, ExpectedIn(t, n), total);
  }

  lemma RecountedNames(t: BlocksTables, open: nat, n: nat)
    requires Views(t, open) && 1 <= n < open
    ensures NamesAt(t.productivity, n) == Keys(t.history, EXPECTED, n)
    ensures forall name :: name in NamesAt(t.productivity, n)
              ==> ExpectedIn(t, n)(name) == GroupTotal(t.history, EXPECTED, n, |t.history|)(name)
  {}

  /* ---------- productivity, block by block ---------- */

  /** The heights up to k, of epoch n, whose block was produced by an operator with this name. */
  function ProducedBy(cfg: Config, chain: Chain, n: nat, name: Str, k: nat): set<nat>
    requires Sound(cfg) && n > 0
  {
    set h: nat | cfg.epochCtx.GetEpochHeight(n) <= h < cfg.epochCtx.GetEpochHeight(n + 1) && h <= k
      && NameOf(Roster(cfg, chain, n).names, chain.block(h).producerAddress) == name
  }

  /** The name of the operator whose turn a height is. */
  function TurnAt(ds: Delegates, h: nat): Str {
    NameOf(ds.names, if |ds.active| > 0 then ds.active[h % |ds.active|] else [])
  }

  /** The heights up to k, of epoch n, that are the turn of an operator with this name. */
  function TurnsOf(cfg: Config, chain: Chain, n: nat, name: Str, k: nat): set<nat>
    requires Sound(cfg) && n > 0
  {
    set h: nat | cfg.epochCtx.GetEpochHeight(n) <= h < cfg.epochCtx.GetEpochHeight(n + 1) && h <= k
      && TurnAt(Roster(cfg, chain, n), h) == name
  }

  /** The columns of the row of a height. */
  lemma RowInEpoch(cfg: Config, chain: Chain, history: seq<BlockRow>, last: nat, n: nat, h: nat)
    requires Sound(cfg) && n > 0 && HistoryUpTo(cfg, chain, history, last) && 1 <= h <= last
    requires chain.block(h).height == h
    ensures var row, ds := history[h - 1], Roster(cfg, chain, n);
            && (row.epoch == n <==> cfg.epochCtx.GetEpochHeight(n) <= h < cfg.epochCtx.GetEpochHeight(n + 1))
            && row.height == h && row.hash == chain.block(h).hash
            && row.producerAddress == chain.block(h).producerAddress
            && (row.epoch == n ==>
                  && row.expectedAddress == (if |ds.active| > 0 then ds.active[h % |ds.active|] else [])
                  && row.producerName == NameOf(ds.names, chain.block(h).producerAddress)
                  && row.expectedName == TurnAt(ds, h))
  {
    assert history[h - 1] == RowAt(cfg, chain, h);
    EpochOfRow(cfg, chain, h);
    EpochRange(cfg.epochCtx, h, n);
    hide EpochCtx.GetEpochHeight, EpochCtx.GetEpochNumber, EpochCtx.ForkAligned, SwitchAligned, DelegatesAt, NameOf,
         HistoryUpTo;
    if cfg.epochCtx.GetEpochNumber(h) == n { SameDelegatesInEpoch(cfg, chain, h, n); }
  }

  lemma {:induction false} CountHeights(cfg: Config, chain: Chain, history: seq<BlockRow>, last: nat, n: nat, name: Str,
                                        k: nat)
    requires Sound(cfg) && n > 0 && HistoryUpTo(cfg, chain, history, last) && k <= |history|
    requires forall h :: chain.block(h).height == h
    ensures TotalTo(history, PRODUCED, n, name, k) == |ProducedBy(cfg, chain, n, name, k)|
    ensures TotalTo(history, EXPECTED, n, name, k) == |TurnsOf(cfg, chain, n, name, k)|
  {
    hide EpochCtx.GetEpochHeight, HistoryUpTo, Roster, NameOf, Sound, ProducedBy, TurnsOf, TurnAt;
    if k == 0 {
      NoHeights(cfg, chain, n, name);
    } else {
      HistoryLength(cfg, chain, history, last);
      CountHeights(cfg, chain, history, last, n, name, k - 1);
      RowInEpoch(cfg, chain, history, last, n, k);
      OneMoreHeight(cfg, chain, n, name, k);
    }
  }

  lemma NoHeights(cfg: Config, chain: Chain, n: nat, name: Str)
    requires Sound(cfg) && n > 0
    ensures ProducedBy(cfg, chain, n, name, 0) == {} && TurnsOf(cfg, chain, n, name, 0) == {}
  {
    HeightStrictlyMonotone(cfg.epochCtx, 0, n);
    hide EpochCtx.GetEpochHeight, Roster, NameOf, Sound;
  }

  lemma OneMoreHeight(cfg: Config, chain: Chain, n: nat, name: Str, k: nat)
    requires Sound(cfg) && n > 0 && k > 0
    ensures var within, ds :=
              cfg.epochCtx.GetEpochHeight(n) <= k < cfg.epochCtx.GetEpochHeight(n + 1), Roster(cfg, chain, n);
            && |ProducedBy(cfg, chain, n, name, k)| == |ProducedBy(cfg, chain, n, name, k - 1)|
               + (if within && NameOf(ds.names, chain.block(k).producerAddress) == name then 1 else 0)
            && |TurnsOf(cfg, chain, n, name, k)| == |TurnsOf(cfg, chain, n, name, k - 1)|
               + (if within && TurnAt(ds, k) == name then 1 else 0)
  {
    SoundDivisors(cfg);
    var within, ds := cfg.epochCtx.GetEpochHeight(n) <= k < cfg.epochCtx.GetEpochHeight(n + 1), Roster(cfg, chain, n);
    hide EpochCtx.GetEpochHeight, Roster, NameOf, Sound, TurnAt;
    OneMore(ProducedBy(cfg, chain, n, name, k - 1), ProducedBy(cfg, chain, n, name, k), k,
            within && NameOf(ds.names, chain.block(k).producerAddress) == name);
    OneMore(TurnsOf(cfg, chain, n, name, k - 1), TurnsOf(cfg, chain, n, name, k), k, within && TurnAt(ds, k) == name);
  }

  lemma OneMore(s: set<nat>, more: set<nat>, k: nat, added: bool)
    requires k !in s && (forall h :: h in more <==> h in s || (added && h == k))
    ensures |more| == |s| + if added then 1 else 0
  {
    assert more == if added then s + {k} else s;
  }

  lemma SoundDivisors(cfg: Config)
    requires Sound(cfg)
    ensures cfg.epochCtx.Divisors()
  {}

  lemma HistoryLength(cfg: Config, chain: Chain, history: seq<BlockRow>, last: nat)
    requires Sound(cfg) && HistoryUpTo(cfg, chain, history, last)
    ensures |history| == last
  {}

  /** For every closed epoch, productivity_history has a row for each name that had a turn in it: with the number of
      blocks that operators of this name produced, and the number of their turns. */
  lemma ProductivityBlockByBlock(cfg: Config, chain: Chain, t: BlocksTables, last: nat, n: nat, name: Str)
    requires Sound(cfg) && last > 0 && forall h :: chain.block(h).height == h
    requires HistoryUpTo(cfg, chain, t.history, last) && Views(t, cfg.epochCtx.GetEpochNumber(last))
    requires 1 <= n < cfg.epochCtx.GetEpochNumber(last)
    ensures cfg.epochCtx.GetEpochHeight(n + 1) <= last
    ensures (n, name) in t.productivity <==> TurnsOf(cfg, chain, n, name, last) != {}
    ensures (n, name) in t.productivity ==>
              && t.productivity[(n, name)].production == |ProducedBy(cfg, chain, n, name, last)|
              && t.productivity[(n, name)].expected == |TurnsOf(cfg, chain, n, name, last)|
  {
    LastPastEpoch(cfg.epochCtx, last, n);
    HistoryLength(cfg, chain, t.history, last);
    CountHeights(cfg, chain, t.history, last, n, name, last);
    hide EpochCtx.GetEpochHeight, EpochCtx.GetEpochNumber, HistoryUpTo, ProducedBy, TurnsOf, Sound;
    GroupHasCount(t.history, n, name);
  }

  lemma {:induction false} CountPositive(rows: seq<BlockRow>, n: nat, name: Str, k: nat)
    requires k <= |rows|
    ensures TotalTo(rows, EXPECTED, n, name, k) >= 0
    ensures name in KeysTo(rows, EXPECTED, n, k) <==> TotalTo(rows, EXPECTED, n, name, k) > 0
  {
    if k > 0 {
      CountPositive(rows, n, name, k - 1);
      KeysStep(rows, EXPECTED, n, k - 1);
    }
  }

  lemma GroupHasCount(rows: seq<BlockRow>, n: nat, name: Str)
    ensures name in Keys(rows, EXPECTED, n) <==> Total(rows, EXPECTED, n, name) > 0
  {
    CountPositive(rows, n, name, |rows|);
  }

  lemma {:induction false} RowsProduced(history: seq<BlockRow>, n: nat, a: nat, b: nat, k: nat)
    requires k <= |history| && SpansEpoch(history, n, a, b)
    ensures EpochSumTo(history, PRODUCED, n, k) == Clamp(k + 1, a, b) - a
  {
    if k > 0 {
      RowsProduced(history, n, a, b, k - 1);
      assert history[k - 1].epoch == n <==> a <= k < b;
    }
  }

  function ProducedIn(t: BlocksTables, n: nat): Str -> int {
    name => OrZero(t.producer, (n, name))
  }

  /** In every closed epoch the blocks produced, over all names, add up to the length of the epoch. */
  lemma ProducedAddUpToLength(cfg: Config, chain: Chain, t: BlocksTables, last: nat, n: nat)
    requires Sound(cfg) && cfg.epochCtx.dardanellesOn && last > 0
    requires HistoryUpTo(cfg, chain, t.history, last) && Views(t, cfg.epochCtx.GetEpochNumber(last))
    requires 1 <= n < cfg.epochCtx.GetEpochNumber(last)
    ensures SumSet(NamesAt(t.producer, n), ProducedIn(t, n))
            == if n < cfg.epochCtx.ForkEpoch() then cfg.epochCtx.OldLength() else cfg.epochCtx.NewLength()
  {
    var s := NamesAt(t.producer, n);
    var total := GroupTotal(t.history, PRODUCED, n, last);
    HistorySpansEpoch(cfg, chain, t.history, last, n);
    RowsProduced(t.history, n, cfg.epochCtx.GetEpochHeight(n), cfg.epochCtx.GetEpochHeight(n + 1), last);
    LastPastEpoch(cfg.epochCtx, last, n);
    EpochLength(cfg.epochCtx, n);
    ProducedNames(t, cfg.epochCtx.GetEpochNumber(last), n);
    GroupsAddUp(t.history, PRODUCED, n, s, last);
    SumSetEqual(s, ProducedIn(t, n), total);
  }

  lemma ProducedNames(t: BlocksTables, open: nat, n: nat)
    requires Views(t, open) && 1 <= n < open
    ensures NamesAt(t.producer, n) == Keys(t.history, PRODUCED, n)
    ensures forall name :: name in NamesAt(t.producer, n)
              ==> ProducedIn(t, n)(name) == GroupTotal(t.history, PRODUCED, n, |t.history|)(name)
  {}

  /* ---------- who has which name ---------- */

  /** The delegates of an epoch: the active producers, with the names read for its first height. */
  lemma RosterOfEpoch(cfg: Config, chain: Chain, n: nat)
    requires Sound(cfg) && n > 0
    ensures Roster(cfg, chain, n).active == (if cfg.rolldpos then chain.activeProducers(n) else [])
    ensures cfg.rolldpos ==>
              var prev := cfg.epochCtx.GetEpochHeight(n - 1);
              Roster(cfg, chain, n).names
              == if cfg.epochCtx.GetEpochHeight(n) >= cfg.epochCtx.FairbankEffectiveHeight() then
                   var candidates := Kept(chain.candidates(prev), SelfStaked);
                   StakingNamesTo(candidates, |candidates|)
                 else
                   var delegates :=
                     chain.electionCandidates(if n == 1 then cfg.gravityChainStartHeight
                                              else chain.gravityHeight(prev));
                   Some(ElectionNamesTo(delegates, |delegates|))
  {
    HeightStrictlyMonotone(cfg.epochCtx, 0, n);
    AlignedRoundTrip(cfg.epochCtx, n);
    hide EpochCtx.GetEpochHeight, EpochCtx.GetEpochNumber, EpochCtx.FairbankEffectiveHeight, EpochCtx.ForkAligned,
         SwitchAligned, StakingNamesTo, ElectionNamesTo, Kept;
  }

  /** An operator goes by the encoded name of the last candidate that it operates. */
  lemma {:induction false} NamedByStaking(candidates: seq<Candidate>, i: nat, n: nat)
    requires i < n <= |candidates| && StakingNamesTo(candidates, n).Some?
    requires forall j :: i < j < n ==> candidates[j].operatorAddress != candidates[i].operatorAddress
    ensures Encoded(candidates[i].name).Success?
    ensures NameOf(StakingNamesTo(candidates, n), candidates[i].operatorAddress) == Encoded(candidates[i].name).value
    decreases n
  {
    hide Encoded;
    if i < n - 1 { NamedByStaking(candidates, i, n - 1); }
  }

  lemma {:induction false} NamedByElection(delegates: seq<Delegate>, i: nat, n: nat)
    requires i < n <= |delegates|
    requires forall j :: i < j < n ==> delegates[j].operatorAddress != delegates[i].operatorAddress
    ensures NameOf(Some(ElectionNamesTo(delegates, n)), delegates[i].operatorAddress) == delegates[i].name
    decreases n
  {
    if i < n - 1 { NamedByElection(delegates, i, n - 1); }
  }

  /** Somebody who is no candidate has no name. */
  lemma {:induction false} Unnamed(candidates: seq<Candidate>, a: Str, n: nat)
    requires n <= |candidates| && forall j :: 0 <= j < n ==> candidates[j].operatorAddress != a
    ensures NameOf(StakingNamesTo(candidates, n), a) == []
  {
    hide Encoded;
    if n > 0 { Unnamed(candidates, a, n - 1); }
  }
}
