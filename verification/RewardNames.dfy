/** The in-memory map from reward addresses to candidate names, and the names it gives to reward_history
    (indexprotocol/rewards/protocol.go). */
module RewardNames {
  import opened Bytes
  import opened Wrappers
  import opened Schema
  import opened EpochContext
  import opened DelegateName
  import opened Paging
  import Blocks

  /** RewardAddrToName; None while it is nil. */
  type Names = Option<map<Str, seq<Str>>>

  function NamesAtAddress(names: map<Str, seq<Str>>, a: Str): seq<Str> {
    if a in names then names[a] else []
  }

  /** Encoded names by reward address over the first n staking candidates; None if a name cannot be encoded. */
  function StakingNamesTo(candidates: seq<Candidate>, n: nat): Names
    requires n <= |candidates|
  {
    if n == 0 then Some(map[])
    else
      match StakingNamesTo(candidates, n - 1)
      case None => None
      case Some(names) =>
        match Encoded(candidates[n - 1].name)
        case Failure(_) => None
        case Success(name) =>
          var a := candidates[n - 1].rewardAddress;
          Some(names[a := NamesAtAddress(names, a) + [name]])
  }

  function ElectionNamesTo(delegates: seq<Delegate>, n: nat): map<Str, seq<Str>>
    requires n <= |delegates|
  {
    if n == 0 then map[]
    else
      var names, d := ElectionNamesTo(delegates, n - 1), delegates[n - 1];
      names[d.rewardAddress := NamesAtAddress(names, d.rewardAddress) + [d.name]]
  }

  /** The names for the blocks of an epoch. */
  function NamesFor(cfg: Config, chain: Chain, epoch: nat, prevHeight: nat, staking: bool): Names {
    if staking then
      var candidates := Kept(chain.candidates(prevHeight), SelfStaked);
      StakingNamesTo(candidates, |candidates|)
    else
      var delegates := chain.electionCandidates(Blocks.GravityFor(cfg, chain, epoch, prevHeight));
      Some(ElectionNamesTo(delegates, |delegates|))
  }

  function NamesAtPlace(cfg: Config, chain: Chain, p: Place): Names {
    NamesFor(cfg, chain, p.epoch, p.prevHeight, p.staking)
  }

  /** The name written next to a reward address: the first one, or nothing. */
  function FirstName(names: Names, a: Str): Str {
    if names.Some? && |NamesAtAddress(names.value, a)| > 0 then NamesAtAddress(names.value, a)[0] else []
  }

  /** Where the name comes from: the first staking candidate with the address, whose name is written encoded. */
  lemma {:induction false} FirstOfStaking(candidates: seq<Candidate>, i: nat, n: nat)
    requires i < n <= |candidates| && StakingNamesTo(candidates, n).Some?
    requires forall j :: 0 <= j < i ==> candidates[j].rewardAddress != candidates[i].rewardAddress
    ensures Encoded(candidates[i].name).Success?
    ensures NamesAtAddress(StakingNamesTo(candidates, n).value, candidates[i].rewardAddress) != []
    ensures FirstName(StakingNamesTo(candidates, n), candidates[i].rewardAddress) == Encoded(candidates[i].name).value
    decreases n
  {
    hide Encoded;
    if i < n - 1 {
      FirstOfStaking(candidates, i, n - 1); } else { NoneOfStaking(candidates, candidates[i].rewardAddress, i);
    }
  }

  /** An address of no candidate has no name. */
  lemma {:induction false} NoneOfStaking(candidates: seq<Candidate>, a: Str, n: nat)
    requires n <= |candidates| && StakingNamesTo(candidates, n).Some?
    requires forall j :: 0 <= j < n ==> candidates[j].rewardAddress != a
    ensures NamesAtAddress(StakingNamesTo(candidates, n).value, a) == []
            && FirstName(StakingNamesTo(candidates, n), a) == []
  {
    hide Encoded;
    if n > 0 { NoneOfStaking(candidates, a, n - 1); }
  }

  /** Before staking it is the first delegate of the election with the address, whose name is written as it is. */
  lemma {:induction false} FirstOfElection(delegates: seq<Delegate>, i: nat, n: nat)
    requires i < n <= |delegates|
    requires forall j :: 0 <= j < i ==> delegates[j].rewardAddress != delegates[i].rewardAddress
    ensures NamesAtAddress(ElectionNamesTo(delegates, n), delegates[i].rewardAddress) != []
    ensures FirstName(Some(ElectionNamesTo(delegates, n)), delegates[i].rewardAddress) == delegates[i].name
    decreases n
  {
    if i < n - 1 {
      FirstOfElection(delegates, i, n - 1); } else { NoneOfElection(delegates, delegates[i].rewardAddress, i);
    }
  }

  lemma {:induction false} NoneOfElection(delegates: seq<Delegate>, a: Str, n: nat)
    requires n <= |delegates| && forall j :: 0 <= j < n ==> delegates[j].rewardAddress != a
    ensures NamesAtAddress(ElectionNamesTo(delegates, n), a) == []
            && FirstName(Some(ElectionNamesTo(delegates, n)), a) == []
  {
    if n > 0 { NoneOfElection(delegates, a, n - 1); }
  }

  /** Why a refresh can fail. */
  ghost predicate RefreshFails(cfg: Config, chain: Chain, p: Place, out: Outage) {
    || RewardCandidatesCall in out || NamesAtPlace(cfg, chain, p).None?
    || (!p.staking && p.epoch != 1 && GravityCall in out)
  }

  /** What an attempt to refresh the names leaves behind. */
  ghost predicate Refreshed(names: Names, wanted: Names, names': Names, outcome: Outcome) {
    match outcome
    case Pass => names' == wanted && wanted.Some?
    case Fail(_) => names' == names || wanted.None?
  }

  /** What handling a block does to the names. */
  ghost predicate NamesHandled(cfg: Config, chain: Chain, p: Place, names: Names, names': Names, outcome: Outcome) {
    if cfg.rolldpos && (p.starts || names.None?)
    then exists refresh ::
      Refreshed(names, NamesAtPlace(cfg, chain, p), names', refresh) && (outcome.Pass? ==> refresh.Pass?)
    else names' == names
  }

  /** The rows carry the names in force. */
  ghost predicate Named(rows: seq<RewardRow>, names: Names) {
    forall i :: 0 <= i < |rows| ==> rows[i].candidateName == FirstName(names, rows[i].rewardAddress)
  }

  lemma {:induction false} NamesStayMissing(candidates: seq<Candidate>, k: nat, n: nat)
    requires k <= n <= |candidates| && StakingNamesTo(candidates, k).None?
    ensures StakingNamesTo(candidates, n).None?
    decreases n - k
  {
    if k < n { NamesStayMissing(candidates, k + 1, n); }
  }

  /* ---------- restarts are invisible in reward_history ---------- */

  /** The names of an epoch, whichever of its blocks is handled. */
  function NamesOfEpoch(cfg: Config, chain: Chain, e: nat): Names
    requires cfg.epochCtx.Divisors()
  {
    var h := cfg.epochCtx.GetEpochHeight(e);
    if e == 0 then None
    else NamesFor(cfg, chain, e, cfg.epochCtx.GetEpochHeight(e - 1), h >= cfg.epochCtx.FairbankEffectiveHeight())
  }

  lemma NamesAtIsOfEpoch(cfg: Config, chain: Chain, h: nat)
    requires Sound(cfg) && h > 0
    ensures NamesAtPlace(cfg, chain, PlaceOf(cfg.epochCtx, h))
            == NamesOfEpoch(cfg, chain, PlaceOf(cfg.epochCtx, h).epoch)
  {
    PlaceOfEpoch(cfg, h);
    hide NamesFor, EpochCtx.GetEpochHeight, EpochCtx.GetEpochNumber, PlaceOf, Sound;
  }

  lemma PlaceOfEpoch(cfg: Config, h: nat)
    requires Sound(cfg) && h > 0
    ensures var e, p := cfg.epochCtx, PlaceOf(cfg.epochCtx, h);
            && cfg.epochCtx.Divisors() && p.epoch > 0 && p.prevHeight == e.GetEpochHeight(p.epoch - 1)
            && (p.staking <==> e.GetEpochHeight(p.epoch) >= e.FairbankEffectiveHeight())
  {
    hide EpochCtx.GetEpochHeight, EpochCtx.GetEpochNumber, EpochCtx.FairbankEffectiveHeight, EpochCtx.ForkAligned;
    StakingOfEpoch(cfg.epochCtx, h);
  }

  /** Every row of reward_history carries the name that its own epoch gives to its address. */
  ghost predicate HistoryNamed(cfg: Config, chain: Chain, history: seq<RewardRow>)
    requires cfg.epochCtx.Divisors()
  {
    forall i :: 0 <= i < |history| ==> RowNamed(cfg, chain, history[i])
  }

  ghost predicate RowNamed(cfg: Config, chain: Chain, row: RewardRow)
    requires cfg.epochCtx.Divisors()
  {
    row.candidateName
      == FirstName(if cfg.rolldpos then NamesOfEpoch(cfg, chain, row.epoch) else None, row.rewardAddress)
  }

  /** The names of the epoch in progress could be read. */
  ghost predicate NamesKnown(cfg: Config, chain: Chain, last: nat)
    requires Sound(cfg)
  {
    cfg.rolldpos && last > 0 ==> NamesOfEpoch(cfg, chain, PlaceOf(cfg.epochCtx, last).epoch).Some?
  }

  /** What memory may hold before height `next` is handled. */
  ghost predicate NamesFit(cfg: Config, chain: Chain, names: Names, next: nat)
    requires Sound(cfg) && next > 0
  {
    var p := PlaceOf(cfg.epochCtx, next);
    if cfg.rolldpos then names.None? || p.starts || names == NamesOfEpoch(cfg, chain, p.epoch)
    else names == None
  }

  lemma SameEpochNext(cfg: Config, last: nat)
    requires Sound(cfg)
    ensures last == 0 ==> PlaceOf(cfg.epochCtx, last + 1).starts
    ensures last > 0 && !PlaceOf(cfg.epochCtx, last + 1).starts
            ==> PlaceOf(cfg.epochCtx, last + 1).epoch == PlaceOf(cfg.epochCtx, last).epoch
  {
    if last == 0 { FirstPlace(cfg.epochCtx); } else { NextPlace(cfg.epochCtx, last); }
  }

  /** Whatever restarts and failures came before, the rows of a committed block carry the names of their epoch,
      and memory fits the next block or the retry. */
  lemma HandlingKeepsNames(cfg: Config, chain: Chain, last: nat, names: Names, names': Names, outcome: Outcome)
    requires Sound(cfg) && NamesKnown(cfg, chain, last) && NamesFit(cfg, chain, names, last + 1)
    requires NamesHandled(cfg, chain, PlaceOf(cfg.epochCtx, last + 1), names, names', outcome)
    ensures outcome.Fail? ==> NamesFit(cfg, chain, names', last + 1)
    ensures outcome.Pass? ==>
              && NamesKnown(cfg, chain, last + 1) && NamesFit(cfg, chain, names', last + 2)
              && names' == if cfg.rolldpos then NamesOfEpoch(cfg, chain, PlaceOf(cfg.epochCtx, last + 1).epoch)
                 else None
  {
    SameEpochNext(cfg, last);
    SameEpochNext(cfg, last + 1);
    NamesAtIsOfEpoch(cfg, chain, last + 1);
    hide PlaceOf, NamesOfEpoch, NamesAtPlace, Sound;
  }

  lemma AppendKeepsNamed(cfg: Config, chain: Chain, history: seq<RewardRow>, rows: seq<RewardRow>, e: nat, names: Names)
    requires cfg.epochCtx.Divisors() && HistoryNamed(cfg, chain, history) && Named(rows, names)
    requires forall i :: 0 <= i < |rows| ==> rows[i].epoch == e
    requires names == if cfg.rolldpos then NamesOfEpoch(cfg, chain, e) else None
    ensures HistoryNamed(cfg, chain, history + rows)
  {
    hide NamesOfEpoch, FirstName;
  }

  /* ---------- where the name of a row comes from ---------- */

  /** In a staking epoch a row carries the encoded name of the first candidate with its reward address, among those read
      at the start of the epoch before. */
  lemma RowFromStaking(cfg: Config, chain: Chain, row: RewardRow, i: nat)
    requires cfg.rolldpos && cfg.epochCtx.Divisors() && row.epoch > 0 && RowNamed(cfg, chain, row)
    requires cfg.epochCtx.GetEpochHeight(row.epoch) >= cfg.epochCtx.FairbankEffectiveHeight()
    requires NamesOfEpoch(cfg, chain, row.epoch).Some?
    requires var candidates := Kept(chain.candidates(cfg.epochCtx.GetEpochHeight(row.epoch - 1)), SelfStaked);
             && i < |candidates| && candidates[i].rewardAddress == row.rewardAddress
             && (forall j :: 0 <= j < i ==> candidates[j].rewardAddress != row.rewardAddress)
    ensures var candidates := Kept(chain.candidates(cfg.epochCtx.GetEpochHeight(row.epoch - 1)), SelfStaked);
            Encoded(candidates[i].name) == Success(row.candidateName)
  {
    var candidates := Kept(chain.candidates(cfg.epochCtx.GetEpochHeight(row.epoch - 1)), SelfStaked);
    hide EpochCtx.GetEpochHeight, EpochCtx.FairbankEffectiveHeight, Kept, StakingNamesTo, Encoded;
    FirstOfStaking(candidates, i, |candidates|);
  }

  /** Before staking it carries the name of the first delegate with its reward address, in the election at the gravity
      height of the start of the epoch before. */
  lemma RowFromElection(cfg: Config, chain: Chain, row: RewardRow, i: nat)
    requires cfg.rolldpos && cfg.epochCtx.Divisors() && row.epoch > 0 && RowNamed(cfg, chain, row)
    requires cfg.epochCtx.GetEpochHeight(row.epoch) < cfg.epochCtx.FairbankEffectiveHeight()
    requires var prev := cfg.epochCtx.GetEpochHeight(row.epoch - 1);
             var delegates :=
               chain.electionCandidates(if row.epoch == 1 then cfg.gravityChainStartHeight
                                        else chain.gravityHeight(prev));
             && i < |delegates| && delegates[i].rewardAddress == row.rewardAddress
             && (forall j :: 0 <= j < i ==> delegates[j].rewardAddress != row.rewardAddress)
    ensures var prev := cfg.epochCtx.GetEpochHeight(row.epoch - 1);
            var delegates :=
              chain.electionCandidates(if row.epoch == 1 then cfg.gravityChainStartHeight
                                       else chain.gravityHeight(prev));
            row.candidateName == delegates[i].name
  {
    var prev := cfg.epochCtx.GetEpochHeight(row.epoch - 1);
    var from := if row.epoch == 1 then cfg.gravityChainStartHeight else chain.gravityHeight(prev);
    var delegates := chain.electionCandidates(from);
    hide EpochCtx.GetEpochHeight, EpochCtx.FairbankEffectiveHeight, ElectionNamesTo;
    FirstOfElection(delegates, i, |delegates|);
  }
}
