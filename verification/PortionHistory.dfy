/** Carrying reward portions from epoch to epoch against reading all logs again
    (indexprotocol/votings/stakingprotocol.go). */
module PortionHistory {
  import opened Bytes
  import opened Wrappers
  import opened Schema
  import opened EpochContext
  import opened Paging
  import opened RewardPortions

  /** The voting tables of the epoch are filled from staking. */
  predicate StakingEpoch(e: EpochCtx, n: nat)
    requires e.Divisors()
  {
    n > 0 && e.GetEpochHeight(n) >= e.FairbankEffectiveHeight()
  }

  /** The epoch in which the portions are read from the contract's deployment on. */
  predicate InitEpoch(e: EpochCtx, n: nat)
    requires e.Divisors()
  {
    n > 0 && e.GetEpochHeight(n) == e.FairbankEffectiveHeight()
  }

  /** The contract is read from its deployment on in one staking epoch at most, and in the first one: every
      later staking epoch follows another one. */
  lemma InitOnce(e: EpochCtx, m: nat, n: nat)
    requires e.Divisors() && e.ForkAligned() && SwitchAligned(e) && StakingEpoch(e, n)
    ensures InitEpoch(e, m) && InitEpoch(e, n) ==> m == n
    ensures InitEpoch(e, m) && m != n ==> m < n
    ensures !InitEpoch(e, n) && n > 1 ==> StakingEpoch(e, n - 1)
    ensures e.FairbankEffectiveHeight() > 0 ==> exists k :: 0 < k <= n && InitEpoch(e, k)
  {
    if m < n { HeightStrictlyMonotone(e, m, n); } else if n < m { HeightStrictlyMonotone(e, n, m); }
    var f := e.FairbankEffectiveHeight();
    if f > 0 {
      var k := e.GetEpochNumber(f);
      AlignedEncloses(e, f);
      assert InitEpoch(e, k);
      if n < k { HeightStrictlyMonotone(e, n, k); }
      if k < n - 1 { HeightStrictlyMonotone(e, k, n - 1); }
    }
  }

  /** The owners of the candidates that an epoch's voting rows are written for. */
  function Owners(cfg: Config, chain: Chain, n: nat): set<Str>
    requires cfg.epochCtx.Divisors() && n > 0
  {
    OwnersOf(Kept(chain.candidates(cfg.epochCtx.GetEpochHeight(n - 1)), SelfStaked))
  }

  function OwnersOf(candidates: seq<Candidate>): set<Str> {
    set i | 0 <= i < |candidates| :: candidates[i].ownerAddress
  }

  /** The portion that epoch n stores for an address: what overlaying logs on the epoch before yields. */
  function Carried(cfg: Config, chain: Chain, n: nat, name: PortionName, a: Str): nat
    requires cfg.epochCtx.Divisors()
  {
    var e := cfg.epochCtx;
    if n == 0 then 0
    else if InitEpoch(e, n) then
      Last(chain.profileLogs, name, a, cfg.portionContractDeployHeight, e.GetEpochHeight(n)).GetOr(0)
    else
      match Last(chain.profileLogs, name, a, e.GetEpochHeight(n - 1), e.GetEpochHeight(n))
      case Some(value) => value
      case None => if n > 1 && a in Owners(cfg, chain, n - 1) then Carried(cfg, chain, n - 1, name, a) else 0
  }

  /** The portion that one scan of all logs gives, from the contract's deployment to the epoch's start. */
  function Scanned(cfg: Config, chain: Chain, n: nat, name: PortionName, a: Str): nat
    requires cfg.epochCtx.Divisors()
  {
    Last(chain.profileLogs, name, a, cfg.portionContractDeployHeight, cfg.epochCtx.GetEpochHeight(n)).GetOr(0)
  }

  /** The chain returns logs in the order of their heights. */
  ghost predicate InOrder(logs: seq<ProfileLog>) {
    forall i, j :: 0 <= i < j < |logs| ==> logs[i].height <= logs[j].height
  }

  lemma {:induction false} NoLogYet(logs: seq<ProfileLog>, name: PortionName, a: Str, from: nat, to: nat, n: nat)
    requires n <= |logs| && forall i :: 0 <= i < n ==> logs[i].height < from
    ensures LastTo(logs, name, a, from, to, n).None?
  {
    if n > 0 { NoLogYet(logs, name, a, from, to, n - 1); }
  }

  /** A range of heights can be scanned in two parts that share their boundary. */
  lemma {:induction false} LastSplit(logs: seq<ProfileLog>, name: PortionName, a: Str, from: nat, mid: nat, to: nat,
                                     n: nat)
    requires n <= |logs| && InOrder(logs) && from <= mid <= to
    ensures LastTo(logs, name, a, from, to, n)
            == if LastTo(logs, name, a, mid, to, n).Some? then LastTo(logs, name, a, mid, to, n)
               else LastTo(logs, name, a, from, mid, n)
  {
    if n > 0 {
      LastSplit(logs, name, a, from, mid, to, n - 1);
      if logs[n - 1].height < mid { NoLogYet(logs, name, a, mid, to, n - 1); }
    }
  }

  /** Where the scan has to start to agree with what is carried: at the deployment if the address was a
      candidate in every staking epoch so far, otherwise at the last epoch that it missed. */
  function Since(cfg: Config, chain: Chain, n: nat, a: Str): nat
    requires cfg.epochCtx.Divisors()
  {
    if n == 0 then 0
    else if InitEpoch(cfg.epochCtx, n) then cfg.portionContractDeployHeight
    else if n > 1 && a in Owners(cfg, chain, n - 1) then Since(cfg, chain, n - 1, a)
    else cfg.epochCtx.GetEpochHeight(n - 1)
  }

  ghost predicate Carries(cfg: Config) {
    && cfg.epochCtx.Divisors() && cfg.epochCtx.ForkAligned() && SwitchAligned(cfg.epochCtx)
    && cfg.portionContractDeployHeight < cfg.epochCtx.FairbankEffectiveHeight()
  }

  /** What epoch n stores is the latest portion logged since the last epoch that the address missed. */
  lemma {:induction false} CarriedIsLastSince(cfg: Config, chain: Chain, n: nat, name: PortionName, a: Str)
    requires Carries(cfg) && InOrder(chain.profileLogs) && StakingEpoch(cfg.epochCtx, n)
    ensures Since(cfg, chain, n, a) <= cfg.epochCtx.GetEpochHeight(n)
    ensures Carried(cfg, chain, n, name, a)
            == Last(chain.profileLogs, name, a, Since(cfg, chain, n, a), cfg.epochCtx.GetEpochHeight(n)).GetOr(0)
  {
    var e := cfg.epochCtx;
    hide LastTo, EpochCtx.GetEpochHeight, EpochCtx.GetEpochNumber;
    if !InitEpoch(e, n) {
      InitOnce(e, n, n);
      HeightStrictlyMonotone(e, n - 1, n);
      if n > 1 && a in Owners(cfg, chain, n - 1) {
        CarriedIsLastSince(cfg, chain, n - 1, name, a);
        LastSplit(chain.profileLogs, name, a, Since(cfg, chain, n, a), e.GetEpochHeight(n - 1), e.GetEpochHeight(n),
                  |chain.profileLogs|);
      }
    }
  }

  /** The address was a candidate in every staking epoch before n. */
  ghost predicate NeverAbsent(cfg: Config, chain: Chain, n: nat, a: Str)
    requires cfg.epochCtx.Divisors()
  {
    forall m: nat :: m < n && StakingEpoch(cfg.epochCtx, m) ==> a in Owners(cfg, chain, m)
  }

  lemma {:induction false} SinceDeployment(cfg: Config, chain: Chain, n: nat, a: Str)
    requires Carries(cfg) && StakingEpoch(cfg.epochCtx, n)
    ensures NeverAbsent(cfg, chain, n, a) ==> Since(cfg, chain, n, a) == cfg.portionContractDeployHeight
    ensures !NeverAbsent(cfg, chain, n, a) ==> Since(cfg, chain, n, a) > cfg.portionContractDeployHeight
  {
    var e := cfg.epochCtx;
    hide EpochCtx.GetEpochHeight, EpochCtx.GetEpochNumber, Owners;
    InitOnce(e, n, n);
    if InitEpoch(e, n) {
      forall m: nat | m < n ensures !StakingEpoch(e, m) { HeightStrictlyMonotone(e, m, n); }
    } else {
      var k :| 0 < k <= n && InitEpoch(e, k);
      assert n > 1 && StakingEpoch(e, n - 1);
      if a in Owners(cfg, chain, n - 1) {
        SinceDeployment(cfg, chain, n - 1, a);
        assert NeverAbsent(cfg, chain, n, a) <==> NeverAbsent(cfg, chain, n - 1, a);
      }
    }
  }

  /** What is carried equals one scan of all logs, whatever was logged, exactly when the address was a
      candidate in every staking epoch before. A delegate that sits one out loses what it set earlier. */
  lemma CarriedEqualsScanIff(cfg: Config, chain: Chain, n: nat, name: PortionName, a: Str)
    requires Carries(cfg) && StakingEpoch(cfg.epochCtx, n)
    ensures NeverAbsent(cfg, chain, n, a)
       <==> forall logs :: InOrder(logs)
              ==> Carried(cfg, chain.(profileLogs := logs), n, name, a)
                  == Scanned(cfg, chain.(profileLogs := logs), n, name, a)
  {
    hide Carried, EpochCtx.GetEpochHeight, EpochCtx.GetEpochNumber, Owners, Since;
    if NeverAbsent(cfg, chain, n, a) {
      forall logs | InOrder(logs)
        ensures Carried(cfg, chain.(profileLogs := logs), n, name, a)
                == Scanned(cfg, chain.(profileLogs := logs), n, name, a)
      {
        SameOwners(cfg, chain, logs, n, a);
        NeverAbsentScans(cfg, chain.(profileLogs := logs), n, name, a);
      }
    } else {
      var logs := [ProfileLog(cfg.portionContractDeployHeight, Some(ProfileEvent(name, a, 1)))];
      SameOwners(cfg, chain, logs, n, a);
      AbsentForgets(cfg, chain.(profileLogs := logs), n, name, a);
      assert InOrder(logs);
    }
  }

  lemma SameOwners(cfg: Config, chain: Chain, logs: seq<ProfileLog>, n: nat, a: Str)
    requires cfg.epochCtx.Divisors()
    ensures NeverAbsent(cfg, chain.(profileLogs := logs), n, a) <==> NeverAbsent(cfg, chain, n, a)
  {}

  lemma NeverAbsentScans(cfg: Config, chain: Chain, n: nat, name: PortionName, a: Str)
    requires Carries(cfg) && StakingEpoch(cfg.epochCtx, n) && InOrder(chain.profileLogs)
             && NeverAbsent(cfg, chain, n, a)
    ensures Carried(cfg, chain, n, name, a) == Scanned(cfg, chain, n, name, a)
  {
    hide Carried, Since, LastTo, EpochCtx.GetEpochHeight;
    SinceDeployment(cfg, chain, n, a);
    CarriedIsLastSince(cfg, chain, n, name, a);
  }

  /** Sitting out one epoch: a portion set at the deployment height is forgotten. */
  lemma AbsentForgets(cfg: Config, chain: Chain, n: nat, name: PortionName, a: Str)
    requires Carries(cfg) && StakingEpoch(cfg.epochCtx, n) && !NeverAbsent(cfg, chain, n, a)
    requires chain.profileLogs == [ProfileLog(cfg.portionContractDeployHeight, Some(ProfileEvent(name, a, 1)))]
    ensures Carried(cfg, chain, n, name, a) == 0 && Scanned(cfg, chain, n, name, a) == 1
  {
    hide Carried, Since, EpochCtx.GetEpochHeight;
    SinceDeployment(cfg, chain, n, a);
    CarriedIsLastSince(cfg, chain, n, name, a);
    NoLogYet(chain.profileLogs, name, a, Since(cfg, chain, n, a), cfg.epochCtx.GetEpochHeight(n), 1);
    assert Sets(chain.profileLogs[0], name, a, cfg.portionContractDeployHeight, cfg.epochCtx.GetEpochHeight(n));
  }
}
