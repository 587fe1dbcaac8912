/** Block history, the in-memory delegate maps and the productivity table (indexprotocol/blocks/protocol.go). */
module Blocks {
  import opened Bytes
  import opened Wrappers
  import opened Schema
  import opened Sql
  import opened EpochContext
  import opened Store
  import opened DelegateName
  import opened Paging

  /** SELECT expected_producer_name, COUNT(expected_producer_address) .. GROUP BY expected_producer_name. */
  const EXPECTED: Query<BlockRow> :=
    Query((r: BlockRow) => r.epoch, (r: BlockRow) => r.expectedName, (r: BlockRow) => 1)

  /** SELECT producer_name, COUNT(producer_address) .. GROUP BY producer_name. */
  const PRODUCED: Query<BlockRow> :=
    Query((r: BlockRow) => r.epoch, (r: BlockRow) => r.producerName, (r: BlockRow) => 1)

  /* ---------- the delegates of an epoch ---------- */

  /** The in-memory state of the protocol; names is None while OperatorAddrToName is nil. */
  datatype Delegates = Delegates(active: seq<Str>, names: Option<map<Str, Str>>)

  /** Operator address to encoded name over the first n staking candidates; None if a name cannot be encoded. */
  function StakingNamesTo(candidates: seq<Candidate>, n: nat): Option<map<Str, Str>>
    requires n <= |candidates|
  {
    if n == 0 then Some(map[])
    else
      match StakingNamesTo(candidates, n - 1)
      case None => None
      case Some(names) =>
        match Encoded(candidates[n - 1].name)
        case Failure(_) => None
        case Success(name) => Some(names[candidates[n - 1].operatorAddress := name])
  }

  function ElectionNamesTo(delegates: seq<Delegate>, n: nat): map<Str, Str>
    requires n <= |delegates|
  {
    if n == 0 then map[]
    else ElectionNamesTo(delegates, n - 1)[delegates[n - 1].operatorAddress := delegates[n - 1].name]
  }

  /** The gravity chain height whose candidates name the delegates of epoch e before staking moved. */
  function GravityFor(cfg: Config, chain: Chain, e: nat, prevHeight: nat): nat {
    if e == 1 then cfg.gravityChainStartHeight else chain.gravityHeight(prevHeight)
  }

  /** The operator names for blocks at a place. */
  function NamesFor(cfg: Config, chain: Chain, p: Place): Option<map<Str, Str>> {
    if p.staking then
      var candidates := Kept(chain.candidates(p.prevHeight), SelfStaked);
      StakingNamesTo(candidates, |candidates|)
    else
      var delegates := chain.electionCandidates(GravityFor(cfg, chain, p.epoch, p.prevHeight));
      Some(ElectionNamesTo(delegates, |delegates|))
  }

  function DelegatesFor(cfg: Config, chain: Chain, p: Place): Delegates {
    Delegates(chain.activeProducers(p.epoch), NamesFor(cfg, chain, p))
  }

  /** What an attempt to refresh the delegates can leave in memory. A failed call leaves one or both parts as
      they were; a name that cannot be encoded leaves an incomplete map behind. */
  ghost predicate Refreshed(m: Delegates, wanted: Delegates, m': Delegates, outcome: Outcome) {
    match outcome
    case Pass => m' == wanted && wanted.names.Some?
    case Fail(_) =>
      && (m'.active == m.active || m'.active == wanted.active)
      && (m'.names == m.names || wanted.names.None?)
  }

  /* ---------- rows ---------- */

  function NameOf(names: Option<map<Str, Str>>, operator: Str): Str {
    if names.Some? && operator in names.value then names.value[operator] else []
  }

  /** Whose turn it is at a height. */
  function ExpectedProducer(active: seq<Str>, height: nat): Str {
    if |active| > 0 then active[height % |active|] else []
  }

  function RowOf(m: Delegates, e: nat, blk: Block): BlockRow {
    var expected := ExpectedProducer(m.active, blk.height);
    BlockRow(e, blk.height, blk.hash, blk.producerAddress, NameOf(m.names, blk.producerAddress), expected,
             NameOf(m.names, expected))
  }

  /* ---------- the productivity join ---------- */

  /** expected_producer LEFT JOIN producer for epoch e. */
  function ProductivityOf(expected: map<(nat, Str), int>, produced: map<(nat, Str), int>,
                          e: nat): map<Str, Productivity>
  {
    map n | n in NamesAt(expected, e) :: Productivity(OrZero(produced, (e, n)), expected[(e, n)])
  }

  method JoinProductivity(expected: map<(nat, Str), int>, produced: map<(nat, Str), int>, e: nat)
    returns (rows: map<Str, Productivity>)
    ensures rows == ProductivityOf(expected, produced, e)
  {
    rows := map[];
    var left := expected.Keys;
    while left != {}
      invariant left <= expected.Keys
      invariant forall n :: n in rows <==> (e, n) in expected && (e, n) !in left
      invariant forall n :: n in rows ==> rows[n] == Productivity(OrZero(produced, (e, n)), expected[(e, n)])
      decreases left
    {
      var p :| p in left;
      left := left - {p};
      if p.0 == e { rows := rows[p.1 := Productivity(OrZero(produced, p), expected[p])]; }
    }
  }

  /** The tables after rebuildProductivityTable(epoch). */
  function Rebuilt(t: BlocksTables, e: nat): BlocksTables {
    if e == 0 then t
    else
      var expected := InsertIgnore(t.expectedProducer, e, Groups(t.history, EXPECTED, e));
      var produced := InsertIgnore(t.producer, e, Groups(t.history, PRODUCED, e));
      t.(expectedProducer := expected, producer := produced,
         productivity := InsertIgnore(t.productivity, e, ProductivityOf(expected, produced, e)))
  }

  function Closed(t: BlocksTables, e: nat, starts: bool): BlocksTables
    requires starts ==> e > 0
  {
    if starts then Rebuilt(t, e - 1) else t
  }

  function WithRow(t: BlocksTables, row: BlockRow): BlocksTables {
    t.(history := t.history + [row])
  }

  /** What handling a block at a place does to the tables and to memory. */
  ghost predicate HandledAt(cfg: Config, chain: Chain, p: Place, blk: Block, m: Delegates, t: BlocksTables,
                            m': Delegates, t': BlocksTables, outcome: Outcome)
    requires p.epoch > 0
  {
    && (if cfg.rolldpos && (p.starts || m.names.None?)
        then exists refresh ::
          Refreshed(m, DelegatesFor(cfg, chain, p), m', refresh) && (outcome.Pass? ==> refresh.Pass?)
        else m' == m)
    && (outcome.Pass? ==> t' == WithRow(Closed(t, p.epoch, p.starts), RowOf(m', p.epoch, blk)))
  }

  /** Why handling a block fails: the delegates are due and cannot be refreshed, because a call fails, a
      candidate's name cannot be encoded or the gravity chain height stays 0, or the height is in the table. */
  ghost predicate Fails(cfg: Config, chain: Chain, p: Place, blk: Block, m: Delegates, t: BlocksTables, out: Outage) {
    || (cfg.rolldpos && (p.starts || m.names.None?) && DelegatesFail(cfg, chain, p, out))
    || exists i :: 0 <= i < |t.history| && t.history[i].height == blk.height
  }

  ghost predicate DelegatesFail(cfg: Config, chain: Chain, p: Place, out: Outage) {
    || ActiveProducersCall in out || DelegatesCall in out || NamesFor(cfg, chain, p).None?
    || (!p.staking && p.epoch != 1 && (GravityCall in out || chain.gravityHeight(p.prevHeight) == 0))
  }

  class BlocksProtocol {
    const cfg: Config
    var activeBlockProducers: seq<Str>
    var operatorAddrToName: Option<map<Str, Str>>

    constructor (cfg: Config)
      ensures this.cfg == cfg && activeBlockProducers == [] && operatorAddrToName == None
    {
      this.cfg := cfg;
      activeBlockProducers := [];
      operatorAddrToName := None;
    }

    function Memory(): Delegates
      reads this
    {
      Delegates(activeBlockProducers, operatorAddrToName)
    }

    /** updateActiveBlockProducers. */
    method UpdateActiveBlockProducers(chain: Chain, epochNumber: nat, out: Outage) returns (outcome: Outcome)
      modifies this`activeBlockProducers
      ensures outcome.Pass? <==> ActiveProducersCall !in out
      ensures outcome.Pass? ==> activeBlockProducers == chain.activeProducers(epochNumber)
      ensures outcome.Fail? ==> activeBlockProducers == old(activeBlockProducers)
    {
      if ActiveProducersCall in out { return Fail(ClientError); }
      var producers := chain.activeProducers(epochNumber);
      activeBlockProducers := [];
      for i := 0 to |producers|
        invariant activeBlockProducers == producers[..i]
      {
        activeBlockProducers := activeBlockProducers + [producers[i]];
      }
      return Pass;
    }

    /** updateStakingDelegates. */
    method UpdateStakingDelegates(chain: Chain, height: nat, out: Outage) returns (outcome: Outcome)
      requires FitsOffsets(|chain.candidates(height)|, READ_CANDIDATES_LIMIT)
      modifies this`operatorAddrToName
      ensures var candidates := Kept(chain.candidates(height), SelfStaked);
              var names := StakingNamesTo(candidates, |candidates|);
              && (outcome.Pass? ==> names.Some? && operatorAddrToName == names)
              && (outcome.Fail? ==> operatorAddrToName == old(operatorAddrToName) || names.None?)
              && (outcome.Fail? <==> DelegatesCall in out || names.None?)
    {
      if DelegatesCall in out { return Fail(ClientError); }
      var candidates := GetAllStakingCandidates(chain.candidates(height));
      operatorAddrToName := Some(map[]);
      for i := 0 to |candidates|
        invariant operatorAddrToName.Some? && StakingNamesTo(candidates, i) == operatorAddrToName
      {
        var encoded := EncodeDelegateName(candidates[i].name);
        if encoded.Failure? {
          NamesStayMissing(candidates, i + 1, |candidates|);
          return Fail(encoded.error);
        }
        operatorAddrToName := Some(operatorAddrToName.value[candidates[i].operatorAddress := encoded.value]);
      }
      return Pass;
    }

    /** updateDelegates. */
    method UpdateDelegates(chain: Chain, place: Place, out: Outage) returns (outcome: Outcome)
      requires FitsOffsets(|chain.candidates(place.prevHeight)|, READ_CANDIDATES_LIMIT)
      modifies this
      ensures Refreshed(old(Memory()), DelegatesFor(cfg, chain, place), Memory(), outcome)
      ensures outcome.Fail? <==> DelegatesFail(cfg, chain, place, out)
    {
      outcome := UpdateActiveBlockProducers(chain, place.epoch, out);
      if outcome.Fail? { return; }
      if place.staking {
        outcome := UpdateStakingDelegates(chain, place.prevHeight, out);
        return;
      }
      var gravityHeight := cfg.gravityChainStartHeight;
      if place.epoch != 1 {
        gravityHeight := chain.gravityHeight(place.prevHeight);
        if GravityCall in out || gravityHeight == 0 { return Fail(ClientError); }
      }
      if DelegatesCall in out { return Fail(ClientError); }
      var delegates := chain.electionCandidates(gravityHeight);
      operatorAddrToName := Some(map[]);
      for i := 0 to |delegates|
        invariant operatorAddrToName == Some(ElectionNamesTo(delegates, i))
        invariant activeBlockProducers == chain.activeProducers(place.epoch)
      {
        operatorAddrToName := Some(operatorAddrToName.value[delegates[i].operatorAddress := delegates[i].name]);
      }
      return Pass;
    }

    /** rebuildProductivityTable: three table updates in a row. */
    method RebuildProductivityTable(tx: Tx, epochNumber: nat)
      modifies tx`blocks
      ensures tx.blocks == Rebuilt(old(tx.blocks), epochNumber)
    {
      if epochNumber == 0 { return; }
      var t := tx.blocks;
      var expected := GroupBy(t.history, EXPECTED, epochNumber);
      t := t.(expectedProducer := InsertIgnore(t.expectedProducer, epochNumber, expected));
      var produced := GroupBy(t.history, PRODUCED, epochNumber);
      t := t.(producer := InsertIgnore(t.producer, epochNumber, produced));
      var rows := JoinProductivity(t.expectedProducer, t.producer, epochNumber);
      tx.blocks := t.(productivity := InsertIgnore(t.productivity, epochNumber, rows));
    }

    /** updateBlockHistory: the height is the primary key. */
    method UpdateBlockHistory(tx: Tx, row: BlockRow) returns (outcome: Outcome)
      modifies tx`blocks
      ensures outcome.Pass?
              <==> forall i :: 0 <= i < |old(tx.blocks.history)| ==> old(tx.blocks.history)[i].height != row.height
      ensures outcome.Pass? ==> tx.blocks == WithRow(old(tx.blocks), row)
      ensures outcome.Fail? ==> tx.blocks == old(tx.blocks)
    {
      for i := 0 to |tx.blocks.history|
        invariant tx.blocks == old(tx.blocks)
        invariant forall j :: 0 <= j < i ==> tx.blocks.history[j].height != row.height
      {
        if tx.blocks.history[i].height == row.height { return Fail(DuplicateKey); }
      }
      tx.blocks := tx.blocks.(history := tx.blocks.history + [row]);
      return Pass;
    }

    /** The special handling of an epoch's first height in HandleBlock. */
    method CloseEpoch(tx: Tx, epochNumber: nat, starts: bool)
      requires starts ==> epochNumber > 0
      modifies tx`blocks
      ensures tx.blocks == Closed(old(tx.blocks), epochNumber, starts)
    {
      hide Rebuilt;
      if starts { RebuildProductivityTable(tx, epochNumber - 1); }
    }

    /** HandleBlock. */
    method HandleBlock(tx: Tx, chain: Chain, blk: Block, out: Outage) returns (outcome: Outcome)
      requires cfg.epochCtx.Divisors() && cfg.epochCtx.dardanellesHeight > 0 && blk.height > 0
      requires forall h :: FitsOffsets(|chain.candidates(h)|, READ_CANDIDATES_LIMIT)
      modifies this, tx`blocks
      ensures HandledAt(cfg, chain, PlaceOf(cfg.epochCtx, blk.height), blk,
                        old(Memory()), old(tx.blocks), Memory(), tx.blocks, outcome)
      ensures outcome.Fail? <==> Fails(cfg, chain, PlaceOf(cfg.epochCtx, blk.height), blk, old(Memory()),
                                       old(tx.blocks), out)
    {
      hide Rebuilt, PlaceOf;
      var place := PlaceOf(cfg.epochCtx, blk.height);
      outcome := Pass;
      if cfg.rolldpos && (place.starts || operatorAddrToName == None) {
        outcome := UpdateDelegates(chain, place, out);
        if outcome.Fail? { return; }
      }
      ghost var before := tx.blocks;
      CloseEpoch(tx, place.epoch, place.starts);
      ClosedHistory(before, place.epoch, place.starts);
      var expectedAddress: Str := [];
      if |activeBlockProducers| > 0 {
        expectedAddress := activeBlockProducers[blk.height % |activeBlockProducers|];
      }
      var row := BlockRow(place.epoch, blk.height, blk.hash, blk.producerAddress,
                          NameOf(operatorAddrToName, blk.producerAddress),
                          expectedAddress, NameOf(operatorAddrToName, expectedAddress));
      outcome := UpdateBlockHistory(tx, row);
    }
  }

  lemma {:induction false} NamesStayMissing(candidates: seq<Candidate>, k: nat, n: nat)
    requires k <= n <= |candidates| && StakingNamesTo(candidates, k).None?
    ensures StakingNamesTo(candidates, n).None?
    decreases n - k
  {
    if k < n { NamesStayMissing(candidates, k + 1, n); }
  }

  /* ---------- the productivity table is a view of block_history ---------- */

  /** productivity_history holds, for every epoch from 1 to closed - 1, exactly one row for each name that
      was expected to produce in it: how often it produced and how often it was expected to. */
  ghost predicate ProductivityView(t: BlocksTables, closed: nat) {
    forall p: (nat, Str) ::
      && (p in t.productivity <==> 1 <= p.0 < closed && p.1 in Keys(t.history, EXPECTED, p.0))
      && (p in t.productivity ==> t.productivity[p] == Recounted(t.history, p.0, p.1))
  }

  function Recounted(history: seq<BlockRow>, e: nat, name: Str): Productivity {
    Productivity(Total(history, PRODUCED, e, name), Total(history, EXPECTED, e, name))
  }

  ghost predicate Views(t: BlocksTables, open: nat) {
    && (forall i :: 0 <= i < |t.history| ==> t.history[i].epoch <= open)
    && Materialised(t.expectedProducer, t.history, EXPECTED, open)
    && Materialised(t.producer, t.history, PRODUCED, open)
    && ProductivityView(t, open)
  }

  lemma CloseKeepsViews(t: BlocksTables, e: nat)
    requires Views(t, e)
    ensures Views(Rebuilt(t, e), e + 1)
  {
    if e > 0 {
      MaterialisedClose(t.expectedProducer, t.history, EXPECTED, e);
      MaterialisedClose(t.producer, t.history, PRODUCED, e);
      var t' := Rebuilt(t, e);
      forall n ensures OrZero(t'.producer, (e, n)) == Total(t.history, PRODUCED, e, n) {
        if n !in Keys(t.history, PRODUCED, e) { TotalOfNone(t.history, PRODUCED, e, n, |t.history|); }
      }
      ProductivityCloses(t, t', e);
    }
  }

  lemma ProductivityCloses(t: BlocksTables, t': BlocksTables, e: nat)
    requires e > 0 && ProductivityView(t, e) && t'.history == t.history
    requires t'.productivity == InsertIgnore(t.productivity, e, ProductivityOf(t'.expectedProducer, t'.producer, e))
    requires Materialised(t'.expectedProducer, t.history, EXPECTED, e + 1)
    requires forall n :: OrZero(t'.producer, (e, n)) == Total(t.history, PRODUCED, e, n)
    ensures ProductivityView(t', e + 1)
  {}

  lemma AppendKeepsViews(t: BlocksTables, row: BlockRow, open: nat)
    requires Views(t, open) && row.epoch == open
    ensures Views(WithRow(t, row), open)
  {
    MaterialisedAppend(t.expectedProducer, t.history, [row], EXPECTED, open);
    MaterialisedAppend(t.producer, t.history, [row], PRODUCED, open);
    forall p: (nat, Str) | 1 <= p.0 < open
      ensures Recounted(t.history + [row], p.0, p.1) == Recounted(t.history, p.0, p.1)
      ensures Keys(t.history + [row], EXPECTED, p.0) == Keys(t.history, EXPECTED, p.0)
    {
      AppendElsewhere(t.history, [row], EXPECTED, p.0, p.1);
      AppendElsewhere(t.history, [row], PRODUCED, p.0, p.1);
    }
  }

  /** No row of block_history or of the tables rebuilt from it is ever changed or removed. */
  ghost predicate OnlyGrows(t: BlocksTables, t': BlocksTables) {
    && t.history <= t'.history
    && (forall p ::
          p in t.expectedProducer ==> p in t'.expectedProducer && t'.expectedProducer[p] == t.expectedProducer[p])
    && (forall p :: p in t.producer ==> p in t'.producer && t'.producer[p] == t.producer[p])
    && (forall p :: p in t.productivity ==> p in t'.productivity && t'.productivity[p] == t.productivity[p])
  }

  lemma RebuiltOnlyGrows(t: BlocksTables, e: nat)
    ensures OnlyGrows(t, Rebuilt(t, e)) && Rebuilt(t, e).history == t.history
  {}

  lemma ClosedViews(t: BlocksTables, open: nat, e: nat, starts: bool)
    requires Views(t, open) && e == open + (if starts then 1 else 0)
    ensures Views(Closed(t, e, starts), e) && OnlyGrows(t, Closed(t, e, starts))
            && Closed(t, e, starts).history == t.history
  {
    hide Rebuilt;
    if starts {
      CloseKeepsViews(t, open);
      RebuiltOnlyGrows(t, open);
    }
  }

  /** Handling the next block keeps productivity_history equal to a recount over all block rows of each
      closed epoch, and changes nothing that was materialised before. */
  lemma HandlingKeepsViews(cfg: Config, chain: Chain, p: Place, blk: Block, m: Delegates, t: BlocksTables,
                           m': Delegates, t': BlocksTables, open: nat)
    requires Views(t, open) && p.epoch > 0 && p.epoch == open + (if p.starts then 1 else 0)
    requires HandledAt(cfg, chain, p, blk, m, t, m', t', Pass)
    ensures Views(t', p.epoch) && OnlyGrows(t, t')
  {
    hide Closed, Views;
    ClosedViews(t, open, p.epoch, p.starts);
    AppendKeepsViews(Closed(t, p.epoch, p.starts), RowOf(m', p.epoch, blk), p.epoch);
  }

  /* ---------- restarts are invisible in block_history ---------- */

  /** The delegates that a block's row is to be written with: those of its own epoch. */
  function DelegatesAt(cfg: Config, chain: Chain, h: nat): Delegates
    requires cfg.epochCtx.Divisors() && cfg.epochCtx.dardanellesHeight > 0 && h > 0
  {
    if cfg.rolldpos then DelegatesFor(cfg, chain, PlaceOf(cfg.epochCtx, h)) else Delegates([], None)
  }

  /** The row of a height, whatever restarts and failures came before it. */
  function RowAt(cfg: Config, chain: Chain, h: nat): BlockRow
    requires cfg.epochCtx.Divisors() && cfg.epochCtx.dardanellesHeight > 0 && h > 0
  {
    RowOf(DelegatesAt(cfg, chain, h), PlaceOf(cfg.epochCtx, h).epoch, chain.block(h))
  }

  /** block_history holds the rows of heights 1 to last, each once, in order. */
  ghost predicate HistoryUpTo(cfg: Config, chain: Chain, history: seq<BlockRow>, last: nat)
    requires Sound(cfg)
  {
    && |history| == last
    && (forall i :: 0 <= i < last ==> history[i] == RowAt(cfg, chain, i + 1))
    && (cfg.rolldpos && last > 0 ==> DelegatesAt(cfg, chain, last).names.Some?)
  }

  /** What memory may hold before height `next` is handled: nothing, or the delegates of its epoch, unless
      the height starts an epoch. */
  ghost predicate MemoryFits(cfg: Config, chain: Chain, m: Delegates, next: nat)
    requires Sound(cfg) && next > 0
  {
    if cfg.rolldpos then m.names.None? || PlaceOf(cfg.epochCtx, next).starts || m == DelegatesAt(cfg, chain, next)
    else m == Delegates([], None)
  }

  lemma SameDelegates(cfg: Config, chain: Chain, h: nat)
    requires Sound(cfg) && h > 0 && !PlaceOf(cfg.epochCtx, h + 1).starts
    ensures DelegatesAt(cfg, chain, h + 1) == DelegatesAt(cfg, chain, h)
  {
    NextPlace(cfg.epochCtx, h);
    hide PlaceOf;
  }

  /** Handling the next block appends exactly the row that the chain determines for it, and leaves memory fit
      for the block after it. A failed attempt leaves memory fit for a retry. In particular a map left
      incomplete by a name that cannot be encoded is never used: no block of that epoch was committed. */
  lemma HandlingKeepsHistory(cfg: Config, chain: Chain, last: nat, m: Delegates, t: BlocksTables,
                             m': Delegates, t': BlocksTables, outcome: Outcome)
    requires Sound(cfg) && chain.block(last + 1).height == last + 1
    requires HistoryUpTo(cfg, chain, t.history, last) && MemoryFits(cfg, chain, m, last + 1)
    requires HandledAt(cfg, chain, PlaceOf(cfg.epochCtx, last + 1), chain.block(last + 1), m, t, m', t', outcome)
    ensures outcome.Pass? ==> HistoryUpTo(cfg, chain, t'.history, last + 1) && MemoryFits(cfg, chain, m', last + 2)
    ensures outcome.Fail? ==> MemoryFits(cfg, chain, m', last + 1)
  {
    hide PlaceOf, Rebuilt, DelegatesFor, Closed;
    if outcome.Pass? {
      CommittedRow(cfg, chain, last, m, t, m', t');
    } else if cfg.rolldpos && last > 0 && !PlaceOf(cfg.epochCtx, last + 1).starts {
      SameDelegates(cfg, chain, last);
    } else if last == 0 {
      FirstPlace(cfg.epochCtx);
    }
  }

  lemma CommittedRow(cfg: Config, chain: Chain, last: nat, m: Delegates, t: BlocksTables, m': Delegates,
                     t': BlocksTables)
    requires Sound(cfg) && chain.block(last + 1).height == last + 1
    requires HistoryUpTo(cfg, chain, t.history, last) && MemoryFits(cfg, chain, m, last + 1)
    requires HandledAt(cfg, chain, PlaceOf(cfg.epochCtx, last + 1), chain.block(last + 1), m, t, m', t', Pass)
    ensures HistoryUpTo(cfg, chain, t'.history, last + 1) && MemoryFits(cfg, chain, m', last + 2)
  {
    hide PlaceOf, Rebuilt, DelegatesFor, Closed;
    var p := PlaceOf(cfg.epochCtx, last + 1);
    if last == 0 { FirstPlace(cfg.epochCtx); } else if !p.starts { SameDelegates(cfg, chain, last); }
    assert m' == DelegatesAt(cfg, chain, last + 1);
    ClosedHistory(t, p.epoch, p.starts);
    if !PlaceOf(cfg.epochCtx, last + 2).starts { SameDelegates(cfg, chain, last + 1); }
  }

  lemma ClosedHistory(t: BlocksTables, e: nat, starts: bool)
    requires starts ==> e > 0
    ensures Closed(t, e, starts).history == t.history
  {}
}
