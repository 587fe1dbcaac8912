/** Delegates' reward portions (indexprotocol/votings/stakingprotocol.go): each epoch overlays the last epoch's
    stored portions with the ProfileUpdated logs since then, instead of reading all logs again. */
module RewardPortions {
  import opened Bytes
  import opened Wrappers
  import opened Schema

  /** The three portions by staking address. */
  datatype PortionMaps = PortionMaps(blockReward: map<Str, nat>, epochReward: map<Str, nat>, foundation: map<Str, nat>)
  {
    function Of(name: PortionName): map<Str, nat> {
      match name
      case BlockPortion => blockReward
      case EpochPortion => epochReward
      case FoundationPortion => foundation
      case OtherProfile => map[]
    }

    /** Go's map lookup: 0 when the address is absent. */
    function At(a: Str): Portions {
      Portions(ValueAt(blockReward, a), ValueAt(epochReward, a), ValueAt(foundation, a))
    }
  }

  function ValueAt(m: map<Str, nat>, a: Str): nat {
    if a in m then m[a] else 0
  }

  function PortionOf(p: Portions, name: PortionName): nat {
    match name
    case BlockPortion => p.blockReward
    case EpochPortion => p.epochReward
    case FoundationPortion => p.foundation
    case OtherProfile => 0
  }

  /** The log sets this portion of this delegate, at a height in the range. */
  predicate Sets(l: ProfileLog, name: PortionName, a: Str, from: nat, to: nat) {
    from <= l.height <= to && l.event.Some? && l.event.value.name == name && l.event.value.delegate == a
  }

  /** The value set last among the first n logs. */
  function LastTo(logs: seq<ProfileLog>, name: PortionName, a: Str, from: nat, to: nat, n: nat): Option<nat>
    requires n <= |logs|
  {
    if n == 0 then None
    else if Sets(logs[n - 1], name, a, from, to) then Some(logs[n - 1].event.value.value)
    else LastTo(logs, name, a, from, to, n - 1)
  }

  function Last(logs: seq<ProfileLog>, name: PortionName, a: Str, from: nat, to: nat): Option<nat> {
    LastTo(logs, name, a, from, to, |logs|)
  }

  /** The log names the portion and the delegate. */
  predicate About(l: ProfileLog, name: PortionName, a: Str) {
    l.event.Some? && l.event.value.name == name && l.event.value.delegate == a
  }

  /** It is the value of the last log among them that names the portion and the delegate at a height from `from` to
      `to`,
      both included. */
  lemma {:induction false} LastIsLast(logs: seq<ProfileLog>, name: PortionName, a: Str, from: nat, to: nat, i: nat,
                                      n: nat)
    requires i < n <= |logs| && About(logs[i], name, a) && from <= logs[i].height <= to
    requires forall j :: i < j < n && About(logs[j], name, a) ==> logs[j].height < from || to < logs[j].height
    ensures LastTo(logs, name, a, from, to, n) == Some(logs[i].event.value.value)
    decreases n
  {
    if i < n - 1 { LastIsLast(logs, name, a, from, to, i, n - 1); }
  }

  /** There is none if no log does. */
  lemma {:induction false} NoneIsLast(logs: seq<ProfileLog>, name: PortionName, a: Str, from: nat, to: nat, n: nat)
    requires n <= |logs|
    requires forall j :: 0 <= j < n && About(logs[j], name, a) ==> logs[j].height < from || to < logs[j].height
    ensures LastTo(logs, name, a, from, to, n) == None
  {
    if n > 0 { NoneIsLast(logs, name, a, from, to, n - 1); }
  }

  function Lookup(m: map<Str, nat>, a: Str): Option<nat> {
    if a in m then Some(m[a]) else None
  }

  /** The map holds what the first n logs set. */
  ghost predicate Logged(m: map<Str, nat>, name: PortionName, logs: seq<ProfileLog>, from: nat, to: nat, n: nat)
    requires n <= |logs|
  {
    forall a :: Lookup(m, a) == LastTo(logs, name, a, from, to, n)
  }

  ghost predicate AllLogged(maps: PortionMaps, logs: seq<ProfileLog>, from: nat, to: nat, n: nat)
    requires n <= |logs|
  {
    && Logged(maps.blockReward, BlockPortion, logs, from, to, n)
    && Logged(maps.epochReward, EpochPortion, logs, from, to, n)
    && Logged(maps.foundation, FoundationPortion, logs, from, to, n)
  }

  lemma NothingLogged(logs: seq<ProfileLog>, from: nat, to: nat)
    ensures AllLogged(PortionMaps(map[], map[], map[]), logs, from, to, 0)
  {}

  lemma OneMoreLog(m: map<Str, nat>, name: PortionName, logs: seq<ProfileLog>, from: nat, to: nat, i: nat)
    requires i < |logs| && Logged(m, name, logs, from, to, i)
    ensures if from <= logs[i].height <= to && logs[i].event.Some? && logs[i].event.value.name == name
            then Logged(m[logs[i].event.value.delegate := logs[i].event.value.value], name, logs, from, to, i + 1)
            else Logged(m, name, logs, from, to, i + 1)
  {
    forall a
      ensures LastTo(logs, name, a, from, to, i + 1)
              == if Sets(logs[i], name, a, from, to) then Some(logs[i].event.value.value)
                else LastTo(logs, name, a, from, to, i)
    {}
  }

  /** getLog: the chain answers with the logs of heights from to from + count, both included. */
  method GetLog(chain: Chain, from: nat, count: nat, out: Outage) returns (outcome: Outcome, maps: PortionMaps)
    ensures outcome == if ProfileLogsCall in out then Fail(ClientError) else Pass
    ensures outcome.Pass? ==> AllLogged(maps, chain.profileLogs, from, from + count, |chain.profileLogs|)
  {
    hide Logged;
    maps := PortionMaps(map[], map[], map[]);
    NothingLogged(chain.profileLogs, from, from + count);
    if ProfileLogsCall in out { return Fail(ClientError), maps; }
    var logs := chain.profileLogs;
    for i := 0 to |logs|
      invariant AllLogged(maps, logs, from, from + count, i)
    {
      OneMoreLog(maps.blockReward, BlockPortion, logs, from, from + count, i);
      OneMoreLog(maps.epochReward, EpochPortion, logs, from, from + count, i);
      OneMoreLog(maps.foundation, FoundationPortion, logs, from, from + count, i);
      var l := logs[i];
      if from <= l.height <= from + count && l.event.Some? {
        var event := l.event.value;
        match event.name {
          case BlockPortion => maps := maps.(blockReward := maps.blockReward[event.delegate := event.value]);
          case EpochPortion => maps := maps.(epochReward := maps.epochReward[event.delegate := event.value]);
          case FoundationPortion => maps := maps.(foundation := maps.foundation[event.delegate := event.value]);
          case OtherProfile =>
        }
      }
    }
    outcome := Pass;
  }

  /** The portions of the last of the first n voting rows for an address in an epoch. */
  function StoredTo(rows: seq<VotingRow>, e: nat, a: Str, n: nat): Option<Portions>
    requires n <= |rows|
  {
    if n == 0 then None
    else if rows[n - 1].epoch == e && rows[n - 1].stakingAddress == a then Some(rows[n - 1].portions)
    else StoredTo(rows, e, a, n - 1)
  }

  function StoredIn(rows: seq<VotingRow>, e: nat, a: Str): Option<Portions> {
    StoredTo(rows, e, a, |rows|)
  }

  ghost predicate HasEpoch(rows: seq<VotingRow>, e: nat, n: nat)
    requires n <= |rows|
  {
    exists i :: 0 <= i < n && rows[i].epoch == e
  }

  /** The maps hold what the first n rows stored. */
  ghost predicate HoldsStored(maps: PortionMaps, rows: seq<VotingRow>, e: nat, n: nat)
    requires n <= |rows|
  {
    forall a ::
      && (a in maps.blockReward <==> StoredTo(rows, e, a, n).Some?)
      && (a in maps.epochReward <==> StoredTo(rows, e, a, n).Some?)
      && (a in maps.foundation <==> StoredTo(rows, e, a, n).Some?)
      && (StoredTo(rows, e, a, n).Some? ==> maps.At(a) == StoredTo(rows, e, a, n).value)
  }

  /** getLastEpochPortion. */
  method GetLastEpochPortion(rows: seq<VotingRow>, e: nat) returns (outcome: Outcome, maps: PortionMaps)
    ensures outcome == if HasEpoch(rows, e, |rows|) then Pass else Fail(NotExist)
    ensures HoldsStored(maps, rows, e, |rows|)
  {
    maps := PortionMaps(map[], map[], map[]);
    var found := false;
    for i := 0 to |rows|
      invariant found <==> HasEpoch(rows, e, i)
      invariant HoldsStored(maps, rows, e, i)
    {
      var vr := rows[i];
      if vr.epoch == e {
        found := true;
        maps := PortionMaps(maps.blockReward[vr.stakingAddress := vr.portions.blockReward],
                            maps.epochReward[vr.stakingAddress := vr.portions.epochReward],
                            maps.foundation[vr.stakingAddress := vr.portions.foundation]);
      }
    }
    outcome := if found then Pass else Fail(NotExist);
  }

  /** A portion for an epoch that starts at `height`: from the contract's logs alone in the first staking
      epoch, afterwards the last epoch's stored value unless a log since its start set a newer one. */
  function PortionFor(cfg: Config, chain: Chain, height: nat, prevHeight: nat, epoch: nat, stored: seq<VotingRow>,
                      name: PortionName, a: Str): nat
    requires epoch > 0
  {
    if height == cfg.epochCtx.FairbankEffectiveHeight() then
      Last(chain.profileLogs, name, a, cfg.portionContractDeployHeight, height).GetOr(0)
    else
      match Last(chain.profileLogs, name, a, prevHeight, height)
      case Some(value) => value
      case None =>
        match StoredIn(stored, epoch - 1, a)
        case Some(p) => PortionOf(p, name)
        case None => 0
  }

  ghost predicate PortionsRight(maps: PortionMaps, cfg: Config, chain: Chain, height: nat, prevHeight: nat, epoch: nat,
                                stored: seq<VotingRow>)
    requires epoch > 0
  {
    forall name, a :: name != OtherProfile ==>
      ValueAt(maps.Of(name), a) == PortionFor(cfg, chain, height, prevHeight, epoch, stored, name, a)
  }

  /** Why the portions can be unavailable: the contract is not configured, the logs cannot be read, or the last
      epoch stored no rows. */
  ghost predicate PortionsFail(cfg: Config, height: nat, epoch: nat, stored: seq<VotingRow>, out: Outage)
    requires epoch > 0
  {
    || ProfileLogsCall in out
    || (height == cfg.epochCtx.FairbankEffectiveHeight()
        && (!cfg.portionContractSet || cfg.portionContractDeployHeight >= height))
    || (height != cfg.epochCtx.FairbankEffectiveHeight() && !HasEpoch(stored, epoch - 1, |stored|))
  }

  /** getAllStakingDelegateRewardPortions. The last epoch is read from the committed database. */
  method GetAllPortions(cfg: Config, chain: Chain, height: nat, prevHeight: nat, epoch: nat, stored: seq<VotingRow>,
                        out: Outage)
    returns (outcome: Outcome, maps: PortionMaps)
    requires epoch > 0 && prevHeight <= height
    ensures outcome.Pass? ==> PortionsRight(maps, cfg, chain, height, prevHeight, epoch, stored)
    ensures outcome.Fail? <==> PortionsFail(cfg, height, epoch, stored, out)
  {
    hide PortionsRight, AllLogged, HoldsStored;
    maps := PortionMaps(map[], map[], map[]);
    if height == cfg.epochCtx.FairbankEffectiveHeight() {
      if !cfg.portionContractSet { return Fail(Misconfigured), maps; }
      if cfg.portionContractDeployHeight >= height { return Fail(Misconfigured), maps; }
      outcome, maps := GetLog(chain, cfg.portionContractDeployHeight, height - cfg.portionContractDeployHeight, out);
      if outcome.Pass? { LoggedFromStart(cfg, chain, height, prevHeight, epoch, stored, maps); }
    } else {
      outcome, maps := GetLastEpochPortion(stored, epoch - 1);
      if outcome.Fail? { return; }
      var before, fromLog := maps, maps;
      outcome, fromLog := GetLog(chain, prevHeight, height - prevHeight, out);
      if outcome.Fail? { return; }
      maps :=
        PortionMaps(Overlay(before.blockReward, fromLog.blockReward), Overlay(before.epochReward, fromLog.epochReward),
                          Overlay(before.foundation, fromLog.foundation));
      Overlaid(cfg, chain, height, prevHeight, epoch, stored, before, fromLog, maps);
    }
  }

  lemma LoggedFromStart(cfg: Config, chain: Chain, height: nat, prevHeight: nat, epoch: nat, stored: seq<VotingRow>,
                        maps: PortionMaps)
    requires epoch > 0 && height == cfg.epochCtx.FairbankEffectiveHeight()
    requires AllLogged(maps, chain.profileLogs, cfg.portionContractDeployHeight, height, |chain.profileLogs|)
    ensures PortionsRight(maps, cfg, chain, height, prevHeight, epoch, stored)
  {}

  lemma Overlaid(cfg: Config, chain: Chain, height: nat, prevHeight: nat, epoch: nat, stored: seq<VotingRow>,
                 before: PortionMaps, logged: PortionMaps, all: PortionMaps)
    requires epoch > 0 && height != cfg.epochCtx.FairbankEffectiveHeight()
    requires HoldsStored(before, stored, epoch - 1, |stored|)
    requires AllLogged(logged, chain.profileLogs, prevHeight, height, |chain.profileLogs|)
    requires all == PortionMaps(Overlay(before.blockReward, logged.blockReward),
                                Overlay(before.epochReward, logged.epochReward),
                                Overlay(before.foundation, logged.foundation))
    ensures PortionsRight(all, cfg, chain, height, prevHeight, epoch, stored)
  {
    hide PortionFor, Overlay, HoldsStored, AllLogged, ValueAt, PortionMaps.Of;
    forall name: PortionName, a | name != OtherProfile
      ensures ValueAt(all.Of(name), a) == PortionFor(cfg, chain, height, prevHeight, epoch, stored, name, a)
    {
      OverlaidAt(cfg, chain, height, prevHeight, epoch, stored, before, logged, all, name, a);
    }
  }

  lemma OverlaidAt(cfg: Config, chain: Chain, height: nat, prevHeight: nat, epoch: nat, stored: seq<VotingRow>,
                   before: PortionMaps, logged: PortionMaps, all: PortionMaps, name: PortionName, a: Str)
    requires epoch > 0 && height != cfg.epochCtx.FairbankEffectiveHeight() && name != OtherProfile
    requires HoldsStored(before, stored, epoch - 1, |stored|)
    requires AllLogged(logged, chain.profileLogs, prevHeight, height, |chain.profileLogs|)
    requires all == PortionMaps(Overlay(before.blockReward, logged.blockReward),
                                Overlay(before.epochReward, logged.epochReward),
                                Overlay(before.foundation, logged.foundation))
    ensures ValueAt(all.Of(name), a) == PortionFor(cfg, chain, height, prevHeight, epoch, stored, name, a)
  {}

  /** `for k, v := range from { to[k] = v }`. */
  function Overlay(to: map<Str, nat>, from: map<Str, nat>): map<Str, nat> {
    to + from
  }
}
