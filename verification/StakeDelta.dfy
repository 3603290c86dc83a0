/** The stake-delta crank of the bot: it stakes what the reserve has too much, or unstakes what it has
    too little, validator by validator, and reads the stake delta anew after every transaction. */
module StakeDelta {
  import opened Arithmetic
  import opened Collections
  import opened StakeTypes
  import opened StakesInfo

  datatype ValidatorInfo = ValidatorInfo(
    index: nat, account: Pubkey, score: nat, lastStakeDeltaEpoch: nat, stakeDelta: int)

  datatype Config = Config(epoch: nat, minStake: nat, limit: nat)

  /** What the client was told about a transaction, and the stake delta that it reads afterwards. */
  datatype Response = Response(ok: bool, delta: int)

  /** The course of events outside the client: how the `n`-th transaction turns out, how many extra
      runs are allowed after `n` transactions, and whether the time limit is over with `n` validators
      still to come. */
  datatype Environment = Environment(
    initialDelta: int, responses: nat -> Response, extraRuns: nat -> nat, late: nat -> bool)
  {
    function Delta(n: nat): int {
      if n == 0 then initialDelta else responses(n - 1).delta
    }
  }

  /** What a transaction asks the program for. */
  datatype Request =
    | StakeReserve(validatorIndex: nat, validatorAccount: Pubkey)
    | DeactivateStake(stakeIndex: nat, stakeAccount: Pubkey, validatorIndex: nat)

  class Marinade {
    const env: Environment
    var requests: seq<Request>

    constructor (env: Environment)
      ensures this.env == env && requests == []
    {
      this.env, requests := env, [];
    }

    method StakeDelta() returns (delta: int)
      ensures delta == env.Delta(|requests|)
    {
      delta := env.Delta(|requests|);
    }

    method ProcessTransaction(request: Request) returns (ok: bool)
      modifies this
      ensures requests == old(requests) + [request] && ok == env.responses(|old(requests)|).ok
    {
      ok := env.responses(|requests|).ok;
      requests := requests + [request];
    }
  }

  /** A transaction that was sent, and the amount that is counted for it. */
  datatype Sent = Sent(request: Request, counted: nat)

  function CountedFor(sent: Sent): nat {
    sent.counted
  }

  function Total(log: seq<Sent>): nat {
    SumBy(log, CountedFor)
  }

  function Requests(log: seq<Sent>): (r: seq<Request>)
    ensures |r| == |log|
  {
    seq(|log|, i requires 0 <= i < |log| => log[i].request)
  }

  /** A deactivation that went well counts for the whole stake or for what is left, a failed one for
      nothing. */
  function Deactivation(v: ValidatorInfo, info: StakeInfo, left: nat, ok: bool): Sent {
    Sent(DeactivateStake(info.index, info.record.stakeAccount, v.index),
         if ok then Min(info.record.lastUpdateDelegated, left) else 0)
  }

  /** What a validator is given: what it lacks, but no more than there is now. */
  function Staking(v: ValidatorInfo, delta: int, ok: bool): Sent
    requires v.stakeDelta >= 0 && delta >= 0
  {
    Sent(StakeReserve(v.index, v.account), if ok then Min(v.stakeDelta, delta) else 0)
  }

  predicate LimitReached(config: Config, sent: nat) {
    config.limit > 0 && sent >= config.limit
  }

  // ---------- What the crank does, as a log of its transactions ----------

  /** Unstaking from the stakes of one validator, `left` of its target being left. */
  function UnstakeValidator(
    v: ValidatorInfo, stakes: seq<StakeInfo>, left: nat, config: Config, env: Environment, log: seq<Sent>): seq<Sent>
    decreases |stakes|
  {
    if stakes == [] || left == 0 then log
    else
      var sent := Deactivation(v, stakes[0], left, env.responses(|log|).ok);
      if LimitReached(config, |log| + 1) then log + [sent]
      else UnstakeValidator(v, stakes[1..], left - sent.counted, config, env, log + [sent])
  }

  /** The stakes of a validator that are not deactivating, smallest first. */
  function StakesOf(account: Pubkey, infos: seq<StakeInfo>): seq<StakeInfo> {
    SortByKey(Filter(account, infos), ByStake)
  }

  function ByStake(info: StakeInfo): int {
    if info.delegation.Some? then info.delegation.value.stake else 0
  }

  function Filter(account: Pubkey, infos: seq<StakeInfo>): seq<StakeInfo> {
    if infos == [] then []
    else
      var delegation := infos[0].delegation;
      (if delegation.Some? && delegation.value.voter == account && !delegation.value.deactivating
       then [infos[0]] else [])
      + Filter(account, infos[1..])
  }

  /** A validator's own surplus, but no more than the shortfall as it is now. */
  function Target(v: ValidatorInfo, delta: int): int {
    Min(-v.stakeDelta, -delta)
  }

  function Unstake(
    vs: seq<ValidatorInfo>, infos: seq<StakeInfo>, config: Config, env: Environment, log: seq<Sent>): seq<Sent>
  {
    var delta := env.Delta(|log|);
    if vs == [] || Total(log) >= -env.initialDelta || vs[0].stakeDelta >= 0 || delta >= 0 then log
    else if vs[0].lastStakeDeltaEpoch == config.epoch then Unstake(vs[1..], infos, config, env, log)
    else
      var log' := UnstakeValidator(vs[0], StakesOf(vs[0].account, infos), Target(vs[0], delta), config, env, log);
      if LimitReached(config, |log'|) || env.late(|vs| - 1) then log' else Unstake(vs[1..], infos, config, env, log')
  }

  /** Whether a validator can be given stake now. */
  predicate WantsStake(v: ValidatorInfo, config: Config, extraRuns: nat) {
    && v.stakeDelta >= 0 && v.stakeDelta >= config.minStake
    && (v.lastStakeDeltaEpoch != config.epoch || extraRuns > 0)
  }

  function Stake(vs: seq<ValidatorInfo>, config: Config, env: Environment, log: seq<Sent>): seq<Sent> {
    var delta := env.Delta(|log|);
    if vs == [] then log
    else if !WantsStake(vs[0], config, env.extraRuns(|log|)) then Stake(vs[1..], config, env, log)
    else if delta <= 0 || delta < config.minStake then log
    else
      var log' := log + [Staking(vs[0], delta, env.responses(|log|).ok)];
      if LimitReached(config, |log'|) || env.late(|vs| - 1) then log' else Stake(vs[1..], config, env, log')
  }

  function NumberOfErrors(env: Environment, n: nat): nat {
    if n == 0 then 0 else NumberOfErrors(env, n - 1) + (if env.responses(n - 1).ok then 0 else 1)
  }

  // ---------- The crank ----------

  lemma OneMoreSent(log: seq<Sent>, sent: Sent)
    ensures Requests(log + [sent]) == Requests(log) + [sent.request]
    ensures Total(log + [sent]) == Total(log) + sent.counted
  {
    TotalOfOneMore(log, sent);
  }

  /** One transaction, with the estimate of what it unstakes. */
  method Deactivate(v: ValidatorInfo, info: StakeInfo, left: nat, marinade: Marinade)
    returns (ok: bool, estimated: nat)
    modifies marinade
    ensures var sent := Deactivation(v, info, left, ok);
            && ok == marinade.env.responses(|old(marinade.requests)|).ok
            && marinade.requests == old(marinade.requests) + [sent.request] && estimated == sent.counted
  {
    ok := marinade.ProcessTransaction(DeactivateStake(info.index, info.record.stakeAccount, v.index));
    estimated := 0;
    if ok {
      var delegated := info.record.lastUpdateDelegated;
      estimated := if delegated < left then delegated else left;
    }
  }

  method UnstakeOne(
    v: ValidatorInfo, target: nat, infos: seq<StakeInfo>, config: Config, marinade: Marinade, errors: nat,
    ghost log: seq<Sent>)
    returns (sum: nat, countErr: nat)
    requires marinade.requests == Requests(log) && errors == NumberOfErrors(marinade.env, |log|)
    modifies marinade
    ensures var log' := UnstakeValidator(v, StakesOf(v.account, infos), target, config, marinade.env, log);
            && marinade.requests == Requests(log') && Total(log') == Total(log) + sum
            && countErr == NumberOfErrors(marinade.env, |log'|)
  {
    var stakes := StakesOf(v.account, infos);
    ghost var log' := log;
    var left: nat := target;
    sum, countErr := 0, errors;
    for i := 0 to |stakes|
      invariant sum + left == target
      invariant marinade.requests == Requests(log') && Total(log') == Total(log) + sum
      invariant countErr == NumberOfErrors(marinade.env, |log'|)
      invariant UnstakeValidator(v, stakes[i..], left, config, marinade.env, log')
             == UnstakeValidator(v, stakes, target, config, marinade.env, log)
    {
      if sum >= target {
        break;
      }
      assert stakes[i..][1..] == stakes[i + 1..];
      ghost var sent := Deactivation(v, stakes[i], left, marinade.env.responses(|marinade.requests|).ok);
      OneMoreSent(log', sent);
      var ok, estimated := Deactivate(v, stakes[i], left, marinade);
      if ok {
        sum := sum + estimated;
        left := SaturatingSub(left, estimated);
      } else {
        countErr := countErr + 1;
      }
      log' := log' + [sent];
      if LimitReached(config, |marinade.requests|) {
        break;
      }
    }
  }

  /** What the crank wants of a validator when it comes to it: nothing if it has to stop there. */
  function WantedOf(v: ValidatorInfo, config: Config, delta: int, sumSoFar: nat, shortfall: nat): Option<nat> {
    if sumSoFar >= shortfall || v.stakeDelta >= 0 || delta >= 0 then None
    else if v.lastStakeDeltaEpoch == config.epoch then Some(0)
    else Some(Target(v, delta))
  }

  lemma UnstakeUnfolds(
    vs: seq<ValidatorInfo>, i: nat, infos: seq<StakeInfo>, config: Config, env: Environment, shortfall: nat,
    log: seq<Sent>)
    requires i < |vs| && shortfall == -env.initialDelta
    ensures var wanted := WantedOf(vs[i], config, env.Delta(|log|), Total(log), shortfall);
            Unstake(vs[i..], infos, config, env, log) ==
            if wanted == None then log
            else if wanted == Some(0) then Unstake(vs[i + 1..], infos, config, env, log)
            else
              var log' :=
                UnstakeValidator(vs[i], StakesOf(vs[i].account, infos), wanted.value, config, env, log);
              if LimitReached(config, |log'|) || env.late(|vs| - i - 1) then log'
              else Unstake(vs[i + 1..], infos, config, env, log')
  {
    assert vs[i..][1..] == vs[i + 1..];
  }

  /** Decides about one validator. */
  method WantFrom(v: ValidatorInfo, config: Config, delta: int, sumSoFar: nat, shortfall: nat)
    returns (wanted: Option<nat>)
    ensures wanted == WantedOf(v, config, delta, sumSoFar, shortfall)
  {
    if sumSoFar >= shortfall {
      return None;
    }
    if v.stakeDelta >= 0 {
      return None;
    }
    if delta >= 0 {
      return None;
    }
    var target: nat := -v.stakeDelta;
    if target > -delta {
      target := -delta;
    }
    wanted := Some(if v.lastStakeDeltaEpoch == config.epoch then 0 else target);
  }

  /** The next validator, unless the crank stops at it or after it. */
  method UnstakeNext(
    vs: seq<ValidatorInfo>, i: nat, infos: seq<StakeInfo>, config: Config, marinade: Marinade, shortfall: nat,
    sumSoFar: nat, errors: nat, ghost log: seq<Sent>)
    returns (stop: bool, total: nat, countErr: nat, ghost log': seq<Sent>)
    requires i < |vs|
    requires marinade.requests == Requests(log) && sumSoFar == Total(log) && shortfall == -marinade.env.initialDelta
    requires errors == NumberOfErrors(marinade.env, |log|)
    modifies marinade
    ensures marinade.requests == Requests(log') && total == Total(log')
    ensures countErr == NumberOfErrors(marinade.env, |log'|)
    ensures Unstake(vs[i..], infos, config, marinade.env, log)
         == if stop then log' else Unstake(vs[i + 1..], infos, config, marinade.env, log')
  {
    UnstakeUnfolds(vs, i, infos, config, marinade.env, shortfall, log);
    stop, total, countErr, log' := true, sumSoFar, errors, log;
    var delta := marinade.StakeDelta();
    var wanted := WantFrom(vs[i], config, delta, sumSoFar, shortfall);
    if wanted == None {
      return;
    }
    stop := false;
    if wanted.value > 0 {
      var sum;
      sum, countErr := UnstakeOne(vs[i], wanted.value, infos, config, marinade, errors, log);
      log' := UnstakeValidator(vs[i], StakesOf(vs[i].account, infos), wanted.value, config, marinade.env, log);
      total := sumSoFar + sum;
      stop := LimitReached(config, |marinade.requests|) || marinade.env.late(|vs| - i - 1);
    }
  }

  method UnstakeAll(vs: seq<ValidatorInfo>, infos: seq<StakeInfo>, config: Config, marinade: Marinade)
    returns (total: nat, countErr: nat)
    requires marinade.requests == [] && marinade.env.initialDelta < 0
    modifies marinade
    ensures var log := Unstake(vs, infos, config, marinade.env, []);
            marinade.requests == Requests(log) && total == Total(log) && countErr == NumberOfErrors(marinade.env, |log|)
  {
    var delta := marinade.StakeDelta();
    var shortfall: nat := -delta;
    ghost var log: seq<Sent> := [];
    total, countErr := 0, 0;
    for i := 0 to |vs|
      invariant marinade.requests == Requests(log) && total == Total(log)
      invariant countErr == NumberOfErrors(marinade.env, |log|)
      invariant Unstake(vs[i..], infos, config, marinade.env, log) == Unstake(vs, infos, config, marinade.env, [])
    {
      var stop;
      stop, total, countErr, log := UnstakeNext(vs, i, infos, config, marinade, shortfall, total, countErr, log);
      if stop {
        break;
      }
    }
  }

  method StakeAll(vs: seq<ValidatorInfo>, config: Config, marinade: Marinade) returns (countErr: nat)
    requires marinade.requests == []
    modifies marinade
    ensures var log := Stake(vs, config, marinade.env, []);
            marinade.requests == Requests(log) && countErr == NumberOfErrors(marinade.env, |log|)
  {
    ghost var log: seq<Sent> := [];
    countErr := 0;
    for i := 0 to |vs|
      invariant marinade.requests == Requests(log) && countErr == NumberOfErrors(marinade.env, |log|)
      invariant Stake(vs[i..], config, marinade.env, log) == Stake(vs, config, marinade.env, [])
    {
      assert vs[i..][1..] == vs[i + 1..];
      var v := vs[i];
      if v.stakeDelta < 0 {
        continue;
      }
      if v.stakeDelta < config.minStake {
        continue;
      }
      if v.lastStakeDeltaEpoch == config.epoch && marinade.env.extraRuns(|marinade.requests|) == 0 {
        continue;
      }
      var delta := marinade.StakeDelta();
      if delta <= 0 || delta < config.minStake {
        break;
      }
      var ok := marinade.ProcessTransaction(StakeReserve(v.index, v.account));
      countErr := if ok then countErr else countErr + 1;
      log := log + [Staking(v, delta, ok)];
      if LimitReached(config, |marinade.requests|) || marinade.env.late(|vs| - i - 1) {
        break;
      }
    }
  }

  datatype Error = TargetBelowZero

  function ByScoreDown(v: ValidatorInfo): int {
    0 - v.score
  }

  function ByDelta(v: ValidatorInfo): int {
    v.stakeDelta
  }

  function ByScore(vs: seq<ValidatorInfo>): seq<ValidatorInfo> {
    SortByKey(vs, ByScoreDown)
  }

  function ByStakeDelta(vs: seq<ValidatorInfo>): seq<ValidatorInfo> {
    SortByKey(vs, ByDelta)
  }

  predicate NothingToDo(delta: int, config: Config) {
    delta == 0 || (delta >= 0 && delta < config.minStake)
  }

  /** The log of a whole run. */
  function Run(vs: seq<ValidatorInfo>, infos: seq<StakeInfo>, config: Config, env: Environment): seq<Sent> {
    if NothingToDo(env.initialDelta, config) then []
    else if env.initialDelta > 0 then Stake(ByScore(vs), config, env, [])
    else Unstake(ByStakeDelta(vs), infos, config, env, [])
  }

  method Process(
    vs: seq<ValidatorInfo>, infos: seq<StakeInfo>, totalActiveBalance: nat, config: Config, marinade: Marinade)
    returns (r: Result<bool, Error>)
    requires marinade.requests == []
    modifies marinade
    ensures var env := marinade.env;
            if totalActiveBalance + env.initialDelta < 0 then r == Err(TargetBelowZero) && marinade.requests == []
            else
              && marinade.requests == Requests(Run(vs, infos, config, env))
              && r == Ok(NumberOfErrors(env, |marinade.requests|) == 0)
  {
    var delta := marinade.StakeDelta();
    if NothingToDo(delta, config) {
      return Ok(true);
    }
    if totalActiveBalance + delta < 0 {
      return Err(TargetBelowZero);
    }
    var countErr;
    if delta > 0 {
      countErr := StakeAll(ByScore(vs), config, marinade);
    } else {
      var total;
      total, countErr := UnstakeAll(ByStakeDelta(vs), infos, config, marinade);
    }
    r := Ok(countErr == 0);
  }

  // ---------- Who is staked to ----------

  /** Each validator stands in the list once, under its own index and account. */
  ghost predicate Apart(vs: seq<ValidatorInfo>) {
    forall i, j :: 0 <= i < j < |vs| ==> vs[i].account != vs[j].account && vs[i].index != vs[j].index
  }

  /** It lacks at least the minimum stake, and has not been staked to in this epoch, unless in an extra run. */
  predicate Eligible(v: ValidatorInfo, config: Config, extraRuns: nat) {
    && 0 <= v.stakeDelta && config.minStake <= v.stakeDelta
    && (v.lastStakeDeltaEpoch == config.epoch ==> extraRuns > 0)
  }

  /** The `n`-th transaction stakes to this validator, which is eligible, what it lacks, but no more than
      the stake delta is now. */
  ghost predicate StakesTo(v: ValidatorInfo, config: Config, env: Environment, n: nat, sent: Sent) {
    && sent.request == StakeReserve(v.index, v.account)
    && Eligible(v, config, env.extraRuns(n))
    && 0 < env.Delta(n) && config.minStake <= env.Delta(n)
    && sent.counted == (if !env.responses(n).ok then 0
                        else if v.stakeDelta <= env.Delta(n) then v.stakeDelta else env.Delta(n))
  }

  /** The list that the crank goes through: the same validators by falling score. */
  lemma BestScoreFirst(vs: seq<ValidatorInfo>)
    ensures multiset(ByScore(vs)) == multiset(vs)
    ensures ScoresFall(ByScore(vs))
    ensures Apart(vs) ==> Apart(ByScore(vs))
  {
    SortByKeyProperties(vs, ByScoreDown);
    var sorted := ByScore(vs);
    forall i, j | 0 <= i < j < |sorted|
      ensures sorted[i].score >= sorted[j].score
      ensures Apart(vs) ==> sorted[i].account != sorted[j].account && sorted[i].index != sorted[j].index
    {
      assert ByScoreDown(sorted[i]) <= ByScoreDown(sorted[j]);
      var a, b := TwoPlaces(vs, sorted, i, j);
    }
  }

  ghost predicate ScoresFall(vs: seq<ValidatorInfo>) {
    forall i, j :: 0 <= i < j < |vs| ==> vs[i].score >= vs[j].score
  }

  /** The list is only added to. */
  lemma {:induction false} StakeExtends(vs: seq<ValidatorInfo>, config: Config, env: Environment, log: seq<Sent>)
    ensures log <= Stake(vs, config, env, log)
    decreases |vs|
  {
    var delta := env.Delta(|log|);
    if vs != [] {
      if WantsStake(vs[0], config, env.extraRuns(|log|)) && delta > 0 && delta >= config.minStake {
        StakeExtends(vs[1..], config, env, log + [Staking(vs[0], delta, env.responses(|log|).ok)]);
      } else {
        StakeExtends(vs[1..], config, env, log);
      }
    }
  }

  lemma {:induction false} StakedToSome(
    vs: seq<ValidatorInfo>, config: Config, env: Environment, log: seq<Sent>, n: nat) returns (v: ValidatorInfo)
    requires |log| <= n < |Stake(vs, config, env, log)|
    ensures v in vs && StakesTo(v, config, env, n, Stake(vs, config, env, log)[n])
    decreases |vs|
  {
    var delta := env.Delta(|log|);
    if WantsStake(vs[0], config, env.extraRuns(|log|)) {
      var log' := log + [Staking(vs[0], delta, env.responses(|log|).ok)];
      StakeExtends(vs[1..], config, env, log');
      if n == |log| {
        v := vs[0];
      } else {
        v := StakedToSome(vs[1..], config, env, log', n);
      }
    } else {
      v := StakedToSome(vs[1..], config, env, log, n);
    }
  }

  /** Whom the `n`-th transaction is for. */
  ghost predicate IsFor(log: seq<Sent>, n: nat, v: ValidatorInfo) {
    n < |log| && log[n].request == StakeReserve(v.index, v.account)
  }

  ghost predicate IsAmong(log: seq<Sent>, from: nat, to: nat, v: ValidatorInfo) {
    exists m: nat :: from <= m < to && IsFor(log, m, v)
  }

  lemma {:induction false} BetterComesFirst(
    vs: seq<ValidatorInfo>, config: Config, env: Environment, log: seq<Sent>, n: nat, v: ValidatorInfo,
    w: ValidatorInfo)
    requires ScoresFall(vs) && Apart(vs) && v in vs && w in vs && v.score < w.score
    requires |log| <= n && IsFor(Stake(vs, config, env, log), n, v)
    requires forall k :: |log| <= k <= n ==> Eligible(w, config, env.extraRuns(k))
    ensures IsAmong(Stake(vs, config, env, log), |log|, n, w)
    decreases |vs|
  {
    var all := Stake(vs, config, env, log);
    var delta := env.Delta(|log|);
    if WantsStake(vs[0], config, env.extraRuns(|log|)) {
      var log' := log + [Staking(vs[0], delta, env.responses(|log|).ok)];
      StakeExtends(vs[1..], config, env, log');
      assert all[|log|] == log'[|log|];
      if n == |log| {
        FirstIsBest(vs, v, w);
      } else {
        var u := StakedToSome(vs[1..], config, env, log', n);
        SameAccount(vs, v, u);
        if w == vs[0] {
          assert IsFor(all, |log|, w);
        } else {
          BetterComesFirst(vs[1..], config, env, log', n, v, w);
          var m: nat :| |log'| <= m < n && IsFor(all, m, w);
        }
      }
    } else {
      var u := StakedToSome(vs[1..], config, env, log, n);
      SameAccount(vs, v, u);
      BetterComesFirst(vs[1..], config, env, log, n, v, w);
    }
  }

  lemma SameAccount(vs: seq<ValidatorInfo>, v: ValidatorInfo, u: ValidatorInfo)
    requires Apart(vs) && v in vs && u in vs && (v.account == u.account || v.index == u.index)
    ensures v == u
  {
  }

  lemma FirstIsBest(vs: seq<ValidatorInfo>, v: ValidatorInfo, w: ValidatorInfo)
    requires ScoresFall(vs) && Apart(vs) && v in vs && w in vs && v.account == vs[0].account
    ensures w.score <= v.score
  {
    SameAccount(vs, v, vs[0]);
  }

  /** Whoever is staked to is eligible and is given its part, and every validator with a higher score that
      was eligible all along has come before it. */
  lemma StakesByScore(vs: seq<ValidatorInfo>, infos: seq<StakeInfo>, config: Config, env: Environment, n: nat)
    returns (v: ValidatorInfo)
    requires env.initialDelta > 0 && Apart(vs) && n < |Run(vs, infos, config, env)|
    ensures v in vs && StakesTo(v, config, env, n, Run(vs, infos, config, env)[n])
    ensures forall w :: w in vs && v.score < w.score && EligibleUntil(w, config, env, n) ==>
              IsAmong(Run(vs, infos, config, env), 0, n, w)
  {
    var sorted := ByScore(vs);
    BestScoreFirst(vs);
    SameElements(sorted, vs);
    SameElements(vs, sorted);
    v := StakedToSome(sorted, config, env, [], n);
    forall w | w in vs && v.score < w.score && EligibleUntil(w, config, env, n)
      ensures IsAmong(Run(vs, infos, config, env), 0, n, w)
    {
      BetterComesFirst(sorted, config, env, [], n, v, w);
    }
  }

  /** Why the crank has stopped: nothing that could be staked is left, the limit is reached, or it is late. */
  ghost predicate Stopped(config: Config, env: Environment, sent: nat, validators: nat) {
    || env.Delta(sent) <= 0 || env.Delta(sent) < config.minStake
    || (config.limit > 0 && sent >= config.limit)
    || exists left: nat :: left < validators && env.late(left)
  }

  lemma {:induction false} NotStakedTo(
    vs: seq<ValidatorInfo>, config: Config, env: Environment, log: seq<Sent>, w: ValidatorInfo)
    requires w in vs && EligibleUntil(w, config, env, |Stake(vs, config, env, log)|)
    requires !IsAmong(Stake(vs, config, env, log), |log|, |Stake(vs, config, env, log)|, w)
    ensures Stopped(config, env, |Stake(vs, config, env, log)|, |vs|)
    decreases |vs|
  {
    var all := Stake(vs, config, env, log);
    var delta := env.Delta(|log|);
    StakeExtends(vs, config, env, log);
    if WantsStake(vs[0], config, env.extraRuns(|log|)) {
      if delta > 0 && delta >= config.minStake {
        var log' := log + [Staking(vs[0], delta, env.responses(|log|).ok)];
        StakeExtends(vs[1..], config, env, log');
        if !(LimitReached(config, |log'|) || env.late(|vs| - 1)) {
          assert all[|log|] == log'[|log|];
          assert w == vs[0] ==> IsFor(all, |log|, w);
          assert forall m: nat :: |log'| <= m < |all| && IsFor(all, m, w) ==> |log| <= m < |all|;
          NotStakedTo(vs[1..], config, env, log', w);
        }
      }
    } else {
      assert w != vs[0];
      NotStakedTo(vs[1..], config, env, log, w);
    }
  }

  /** A validator that is eligible all along is only left out when the crank has stopped for a reason. */
  lemma NobodyIsLeftOut(
    vs: seq<ValidatorInfo>, infos: seq<StakeInfo>, config: Config, env: Environment, w: ValidatorInfo)
    requires env.initialDelta > 0 && w in vs
    requires EligibleUntil(w, config, env, |Run(vs, infos, config, env)|)
    requires !IsAmong(Run(vs, infos, config, env), 0, |Run(vs, infos, config, env)|, w)
    ensures Stopped(config, env, |Run(vs, infos, config, env)|, |vs|)
  {
    var sorted := ByScore(vs);
    SortByKeyProperties(vs, ByScoreDown);
    SameElements(vs, sorted);
    if !NothingToDo(env.initialDelta, config) {
      NotStakedTo(sorted, config, env, [], w);
    }
  }

  ghost predicate EligibleUntil(v: ValidatorInfo, config: Config, env: Environment, n: nat) {
    forall k: nat :: k <= n ==> Eligible(v, config, env.extraRuns(k))
  }

  // ---------- Who is unstaked from ----------

  /** The list that the crank goes through: the same validators, the one with the most to give first. */
  lemma LargestSurplusFirst(vs: seq<ValidatorInfo>)
    ensures multiset(ByStakeDelta(vs)) == multiset(vs)
    ensures SurplusFalls(ByStakeDelta(vs))
    ensures Apart(vs) ==> Apart(ByStakeDelta(vs))
  {
    SortByKeyProperties(vs, ByDelta);
    var sorted := ByStakeDelta(vs);
    forall i, j | 0 <= i < j < |sorted|
      ensures sorted[i].stakeDelta <= sorted[j].stakeDelta
      ensures Apart(vs) ==> sorted[i].account != sorted[j].account && sorted[i].index != sorted[j].index
    {
      assert ByDelta(sorted[i]) <= ByDelta(sorted[j]);
      var a, b := TwoPlaces(vs, sorted, i, j);
    }
  }

  ghost predicate SurplusFalls(vs: seq<ValidatorInfo>) {
    forall i, j :: 0 <= i < j < |vs| ==> vs[i].stakeDelta <= vs[j].stakeDelta
  }

  /** The transaction deactivates this stake of this validator, or a part of it, and is counted for no more
      than the stake held and than the validator has too much. */
  predicate UnstakesFrom(v: ValidatorInfo, info: StakeInfo, config: Config, sent: Sent) {
    && sent.request == DeactivateStake(info.index, info.record.stakeAccount, v.index)
    && IsStakeOf(v.account, info) && v.stakeDelta < 0 && v.lastStakeDeltaEpoch != config.epoch
    && sent.counted <= info.record.lastUpdateDelegated && sent.counted <= -v.stakeDelta
  }

  /** The stakes of a validator are tried one after the other. */
  lemma {:induction false} OneAfterTheOther(
    v: ValidatorInfo, stakes: seq<StakeInfo>, left: nat, config: Config, env: Environment, log: seq<Sent>)
    ensures var log' := UnstakeValidator(v, stakes, left, config, env, log);
            && log <= log' && |log'| <= |log| + |stakes|
            && (forall k :: |log| <= k < |log'| ==>
                  TriesStake(v, stakes[k - |log|], left, log'[k]) && IsFrom(log', k, v))
            && (stakes != [] && left > 0 ==> |log| < |log'|)
    decreases |stakes|
  {
    if stakes != [] && left > 0 {
      var sent := Deactivation(v, stakes[0], left, env.responses(|log|).ok);
      if !LimitReached(config, |log| + 1) {
        OneAfterTheOther(v, stakes[1..], left - sent.counted, config, env, log + [sent]);
      }
    }
  }

  predicate TriesStake(v: ValidatorInfo, info: StakeInfo, left: nat, sent: Sent) {
    && sent.request == DeactivateStake(info.index, info.record.stakeAccount, v.index)
    && sent.counted <= info.record.lastUpdateDelegated && sent.counted <= left
  }

  lemma {:induction false} UnstakeExtends(
    vs: seq<ValidatorInfo>, infos: seq<StakeInfo>, config: Config, env: Environment, log: seq<Sent>)
    ensures log <= Unstake(vs, infos, config, env, log)
    decreases |vs|
  {
    var delta := env.Delta(|log|);
    if vs != [] && Total(log) < -env.initialDelta && vs[0].stakeDelta < 0 && delta < 0 {
      if vs[0].lastStakeDeltaEpoch == config.epoch {
        UnstakeExtends(vs[1..], infos, config, env, log);
      } else {
        var stakes, target := StakesOf(vs[0].account, infos), Target(vs[0], delta);
        OneAfterTheOther(vs[0], stakes, target, config, env, log);
        UnstakeExtends(vs[1..], infos, config, env, UnstakeValidator(vs[0], stakes, target, config, env, log));
      }
    }
  }

  lemma {:induction false} UnstakedFromSome(
    vs: seq<ValidatorInfo>, infos: seq<StakeInfo>, config: Config, env: Environment, log: seq<Sent>, n: nat)
    returns (v: ValidatorInfo, info: StakeInfo)
    requires |log| <= n < |Unstake(vs, infos, config, env, log)|
    ensures v in vs && info in infos && UnstakesFrom(v, info, config, Unstake(vs, infos, config, env, log)[n])
    decreases |vs|
  {
    var delta := env.Delta(|log|);
    if vs[0].lastStakeDeltaEpoch == config.epoch {
      v, info := UnstakedFromSome(vs[1..], infos, config, env, log, n);
    } else {
      var stakes, target := StakesOf(vs[0].account, infos), Target(vs[0], delta);
      var log' := UnstakeValidator(vs[0], stakes, target, config, env, log);
      OneAfterTheOther(vs[0], stakes, target, config, env, log);
      UnstakeExtends(vs[1..], infos, config, env, log');
      if n < |log'| {
        SmallestFirst(vs[0].account, infos);
        v, info := vs[0], stakes[n - |log|];
        assert TriesStake(v, info, target, log'[n]) && info in stakes;
      } else {
        v, info := UnstakedFromSome(vs[1..], infos, config, env, log', n);
      }
    }
  }

  /** The `n`-th transaction is for a stake of this validator. */
  ghost predicate IsFrom(log: seq<Sent>, n: nat, v: ValidatorInfo) {
    n < |log| && log[n].request.DeactivateStake? && log[n].request.validatorIndex == v.index
  }

  ghost predicate IsFromAmong(log: seq<Sent>, from: nat, to: nat, v: ValidatorInfo) {
    exists m: nat :: from <= m < to && IsFrom(log, m, v)
  }

  /** What the transactions for one validator add to the log. */
  ghost predicate AddedFor(v: ValidatorInfo, infos: seq<StakeInfo>, config: Config, log: seq<Sent>, log': seq<Sent>) {
    && log <= log' && (forall k :: |log| <= k < |log'| ==> IsFrom(log', k, v))
    && (Unstakeable(v, infos, config) ==> |log| < |log'|)
  }

  /** The crank comes to the first validator: it stops there, or adds the transactions for it and goes on if
      there is more to do. */
  lemma {:induction false} UnstakeByOne(
    vs: seq<ValidatorInfo>, infos: seq<StakeInfo>, config: Config, env: Environment, log: seq<Sent>)
    returns (stop: bool, more: bool, log': seq<Sent>)
    requires vs != []
    ensures var all := Unstake(vs, infos, config, env, log);
            && log' <= all
            && all == (if stop then log else if more then Unstake(vs[1..], infos, config, env, log') else log')
    ensures stop ==>
              log' == log && (Total(log) >= -env.initialDelta || vs[0].stakeDelta >= 0 || env.Delta(|log|) >= 0)
    ensures !stop ==> AddedFor(vs[0], infos, config, log, log')
    ensures !stop && !more ==> LimitReached(config, |log'|) || env.late(|vs| - 1)
  {
    var delta := env.Delta(|log|);
    stop, more, log' := false, true, log;
    if Total(log) >= -env.initialDelta || vs[0].stakeDelta >= 0 || delta >= 0 {
      stop := true;
    } else if vs[0].lastStakeDeltaEpoch != config.epoch {
      var stakes, target := StakesOf(vs[0].account, infos), Target(vs[0], delta);
      log' := UnstakeValidator(vs[0], stakes, target, config, env, log);
      more := !(LimitReached(config, |log'|) || env.late(|vs| - 1));
      OneAfterTheOther(vs[0], stakes, target, config, env, log);
      SmallestFirst(vs[0].account, infos);
    }
    UnstakeExtends(vs[1..], infos, config, env, log');
  }

  lemma {:induction false} LargerComesFirst(
    vs: seq<ValidatorInfo>, infos: seq<StakeInfo>, config: Config, env: Environment, log: seq<Sent>, n: nat,
    v: ValidatorInfo, w: ValidatorInfo)
    requires SurplusFalls(vs) && Apart(vs) && v in vs && w in vs && w.stakeDelta < v.stakeDelta
    requires |log| <= n && IsFrom(Unstake(vs, infos, config, env, log), n, v)
    requires w.lastStakeDeltaEpoch != config.epoch && exists info :: info in infos && IsStakeOf(w.account, info)
    ensures IsFromAmong(Unstake(vs, infos, config, env, log), |log|, n, w)
    decreases |vs|
  {
    var all := Unstake(vs, infos, config, env, log);
    var stop, more, log' := UnstakeByOne(vs, infos, config, env, log);
    if n < |log'| {
      assert IsFrom(log', n, vs[0]);
      FirstHasMost(vs, v, w);
    } else {
      var u, _ := UnstakedFromSome(vs[1..], infos, config, env, log', n);
      SameAccount(vs, v, u);
      if w == vs[0] {
        assert IsFrom(log', |log|, w) && IsFrom(all, |log|, w);
      } else {
        LargerComesFirst(vs[1..], infos, config, env, log', n, v, w);
        var m: nat :| |log'| <= m < n && IsFrom(all, m, w);
      }
    }
  }

  lemma FirstHasMost(vs: seq<ValidatorInfo>, v: ValidatorInfo, w: ValidatorInfo)
    requires SurplusFalls(vs) && Apart(vs) && v in vs && w in vs && v.index == vs[0].index
    ensures v.stakeDelta <= w.stakeDelta
  {
    SameAccount(vs, v, vs[0]);
  }

  /** Whoever is unstaked from has too much, a stake of its own is named, and every validator with more than
      it, that has a stake and has not been unstaked from in this epoch, has come before it. */
  lemma UnstakesBySurplus(vs: seq<ValidatorInfo>, infos: seq<StakeInfo>, config: Config, env: Environment, n: nat)
    returns (v: ValidatorInfo, info: StakeInfo)
    requires env.initialDelta < 0 && Apart(vs) && n < |Run(vs, infos, config, env)|
    ensures v in vs && info in infos && UnstakesFrom(v, info, config, Run(vs, infos, config, env)[n])
    ensures forall w :: w in vs && w.stakeDelta < v.stakeDelta && Unstakeable(w, infos, config) ==>
              IsFromAmong(Run(vs, infos, config, env), 0, n, w)
  {
    var sorted := ByStakeDelta(vs);
    LargestSurplusFirst(vs);
    SameElements(sorted, vs);
    SameElements(vs, sorted);
    v, info := UnstakedFromSome(sorted, infos, config, env, [], n);
    forall w | w in vs && w.stakeDelta < v.stakeDelta && Unstakeable(w, infos, config)
      ensures IsFromAmong(Run(vs, infos, config, env), 0, n, w)
    {
      LargerComesFirst(sorted, infos, config, env, [], n, v, w);
    }
  }

  /** Why the crank has stopped: the shortfall has been counted or is gone, the limit is reached, or it is
      late. */
  ghost predicate StoppedUnstaking(config: Config, env: Environment, log: seq<Sent>, validators: nat) {
    || Total(log) >= -env.initialDelta || env.Delta(|log|) >= 0
    || (config.limit > 0 && |log| >= config.limit)
    || exists left: nat :: left < validators && env.late(left)
  }

  lemma {:induction false} NotUnstakedFrom(
    vs: seq<ValidatorInfo>, infos: seq<StakeInfo>, config: Config, env: Environment, log: seq<Sent>, w: ValidatorInfo)
    requires SurplusFalls(vs) && w in vs && w.stakeDelta < 0 && Unstakeable(w, infos, config)
    requires !IsFromAmong(Unstake(vs, infos, config, env, log), |log|, |Unstake(vs, infos, config, env, log)|, w)
    ensures StoppedUnstaking(config, env, Unstake(vs, infos, config, env, log), |vs|)
    decreases |vs|
  {
    var all := Unstake(vs, infos, config, env, log);
    var stop, more, log' := UnstakeByOne(vs, infos, config, env, log);
    assert vs[0].stakeDelta <= w.stakeDelta;
    if !stop {
      assert w == vs[0] ==> IsFrom(log', |log|, w) && IsFrom(all, |log|, w);
      if more {
        assert forall m: nat :: |log'| <= m < |all| && IsFrom(all, m, w) ==> |log| <= m < |all|;
        NotUnstakedFrom(vs[1..], infos, config, env, log', w);
      }
    }
  }

  /** A validator with too much stake, that has a stake and has not been unstaked from in this epoch, is
      only left out when the crank has stopped for a reason. */
  lemma NoSurplusIsLeft(
    vs: seq<ValidatorInfo>, infos: seq<StakeInfo>, config: Config, env: Environment, w: ValidatorInfo)
    requires env.initialDelta < 0 && w in vs && w.stakeDelta < 0 && Unstakeable(w, infos, config)
    requires !IsFromAmong(Run(vs, infos, config, env), 0, |Run(vs, infos, config, env)|, w)
    ensures StoppedUnstaking(config, env, Run(vs, infos, config, env), |vs|)
  {
    var sorted := ByStakeDelta(vs);
    SortByKeyProperties(vs, ByDelta);
    SameElements(vs, sorted);
    forall i, j | 0 <= i < j < |sorted|
      ensures sorted[i].stakeDelta <= sorted[j].stakeDelta
    {
      assert ByDelta(sorted[i]) <= ByDelta(sorted[j]);
    }
    NotUnstakedFrom(sorted, infos, config, env, [], w);
  }

  ghost predicate Unstakeable(v: ValidatorInfo, infos: seq<StakeInfo>, config: Config) {
    v.lastStakeDeltaEpoch != config.epoch && exists info :: info in infos && IsStakeOf(v.account, info)
  }

  // ---------- How much is counted ----------

  /** How far the `n`-th transaction moves the stake delta towards zero, going up or down. */
  function Gain(env: Environment, up: bool, n: nat): int {
    if up then env.Delta(n + 1) - env.Delta(n) else env.Delta(n) - env.Delta(n + 1)
  }

  /** By how much the counted amounts exceed what the transactions did to the stake delta, in sum over
      the transactions for which they do. */
  function Slack(env: Environment, up: bool, log: seq<Sent>): nat {
    if log == [] then 0
    else
      var n := |log| - 1;
      var missing := log[n].counted - Gain(env, up, n);
      Slack(env, up, log[..n]) + (if missing > 0 then missing else 0)
  }

  /** If no transaction does less than it counts for, there is no slack. */
  lemma {:induction false} NoSlack(env: Environment, up: bool, log: seq<Sent>)
    requires forall n :: 0 <= n < |log| ==> Gain(env, up, n) >= log[n].counted
    ensures Slack(env, up, log) == 0
  {
    if log != [] {
      NoSlack(env, up, log[..|log| - 1]);
    }
  }

  /** What is counted is made up of what the stake delta has moved, and of slack. */
  lemma {:induction false} Telescope(env: Environment, up: bool, log: seq<Sent>)
    ensures up ==> Total(log) <= env.Delta(|log|) - env.initialDelta + Slack(env, up, log)
    ensures !up ==> Total(log) <= env.initialDelta - env.Delta(|log|) + Slack(env, up, log)
  {
    if log != [] {
      Telescope(env, up, log[..|log| - 1]);
    }
  }

  lemma TotalOfOneMore(log: seq<Sent>, sent: Sent)
    ensures Total(log + [sent]) == Total(log) + sent.counted
  {
    assert (log + [sent])[..|log|] == log;
  }

  lemma SlackOfOneMore(env: Environment, up: bool, log: seq<Sent>, sent: Sent)
    ensures Slack(env, up, log + [sent]) >= Slack(env, up, log)
  {
    assert (log + [sent])[..|log|] == log;
  }

  /** From one validator no more is counted than its target; how many transactions that takes does not
      matter. */
  lemma {:induction false} WithinTarget(
    v: ValidatorInfo, stakes: seq<StakeInfo>, left: nat, config: Config, env: Environment, log: seq<Sent>)
    ensures var log' := UnstakeValidator(v, stakes, left, config, env, log);
            Total(log') <= Total(log) + left && Slack(env, true, log') >= Slack(env, true, log)
    decreases |stakes|
  {
    if stakes != [] && left != 0 {
      var sent := Deactivation(v, stakes[0], left, env.responses(|log|).ok);
      TotalOfOneMore(log, sent);
      SlackOfOneMore(env, true, log, sent);
      WithinTarget(v, stakes[1..], left - sent.counted, config, env, log + [sent]);
    }
  }

  /** What the stakes hold for which the transactions, from the `n`-th on, go well. */
  function Reachable(stakes: seq<StakeInfo>, env: Environment, n: nat): nat {
    if stakes == [] then 0
    else
      (if env.responses(n).ok then stakes[0].record.lastUpdateDelegated else 0) + Reachable(stakes[1..], env, n + 1)
  }

  /** How many stakes can be tried before the limit on the number of transactions is reached. */
  function Tried(stakes: seq<StakeInfo>, config: Config, sent: nat): (n: nat)
    ensures n <= |stakes|
  {
    if config.limit == 0 then |stakes| else Min(|stakes|, if sent < config.limit then config.limit - sent else 1)
  }

  /** The count for a validator is its target, or all that could be had within the limit. */
  lemma {:induction false} AsMuchAsPossible(
    v: ValidatorInfo, stakes: seq<StakeInfo>, left: nat, config: Config, env: Environment, log: seq<Sent>)
    ensures var tried := stakes[..Tried(stakes, config, |log|)];
            Total(UnstakeValidator(v, stakes, left, config, env, log))
              == Total(log) + Min(left, Reachable(tried, env, |log|))
    decreases |stakes|
  {
    if stakes != [] && left != 0 {
      var n := Tried(stakes, config, |log|);
      var sent := Deactivation(v, stakes[0], left, env.responses(|log|).ok);
      TotalOfOneMore(log, sent);
      if LimitReached(config, |log| + 1) {
        assert stakes[..n] == [stakes[0]] && [stakes[0]][1..] == [];
      } else {
        assert stakes[..n][1..] == stakes[1..][..n - 1];
        AsMuchAsPossible(v, stakes[1..], left - sent.counted, config, env, log + [sent]);
      }
    }
  }

  lemma {:induction false} UnstakeBound(
    vs: seq<ValidatorInfo>, infos: seq<StakeInfo>, config: Config, env: Environment, log: seq<Sent>)
    requires Total(log) <= -env.initialDelta + Slack(env, true, log)
    ensures var log' := Unstake(vs, infos, config, env, log);
            Total(log') <= -env.initialDelta + Slack(env, true, log')
    decreases |vs|
  {
    var delta := env.Delta(|log|);
    if vs != [] && Total(log) < -env.initialDelta && vs[0].stakeDelta < 0 && delta < 0 {
      if vs[0].lastStakeDeltaEpoch == config.epoch {
        UnstakeBound(vs[1..], infos, config, env, log);
      } else {
        var stakes, target := StakesOf(vs[0].account, infos), Target(vs[0], delta);
        var log' := UnstakeValidator(vs[0], stakes, target, config, env, log);
        Telescope(env, true, log);
        WithinTarget(vs[0], stakes, target, config, env, log);
        UnstakeBound(vs[1..], infos, config, env, log');
      }
    }
  }

  lemma {:induction false} StakeBound(vs: seq<ValidatorInfo>, config: Config, env: Environment, log: seq<Sent>)
    requires env.initialDelta >= 0 && Total(log) <= env.initialDelta + Slack(env, false, log)
    requires forall n :: 0 <= n < |log| ==> log[n].counted == 0 || log[n].counted >= config.minStake
    ensures var log' := Stake(vs, config, env, log);
            && Total(log') <= env.initialDelta + Slack(env, false, log')
            && forall n :: 0 <= n < |log'| ==> log'[n].counted == 0 || log'[n].counted >= config.minStake
    decreases |vs|
  {
    var delta := env.Delta(|log|);
    if vs != [] {
      if WantsStake(vs[0], config, env.extraRuns(|log|)) && delta > 0 && delta >= config.minStake {
        var sent := Staking(vs[0], delta, env.responses(|log|).ok);
        Telescope(env, false, log);
        TotalOfOneMore(log, sent);
        SlackOfOneMore(env, false, log, sent);
        StakeBound(vs[1..], config, env, log + [sent]);
      } else {
        StakeBound(vs[1..], config, env, log);
      }
    }
  }

  function Surplus(v: ValidatorInfo): nat {
    if v.stakeDelta < 0 then -v.stakeDelta else 0
  }

  function Lack(v: ValidatorInfo): nat {
    if v.stakeDelta > 0 then v.stakeDelta else 0
  }

  /** What the validators of the list have too much, or too little. */
  function Excess(vs: seq<ValidatorInfo>, up: bool): nat {
    SumBy(vs, if up then Surplus else Lack)
  }

  lemma {:induction false} UnstakeWithinExcess(
    vs: seq<ValidatorInfo>, infos: seq<StakeInfo>, config: Config, env: Environment, log: seq<Sent>)
    ensures Total(Unstake(vs, infos, config, env, log)) <= Total(log) + Excess(vs, true)
    decreases |vs|
  {
    var delta := env.Delta(|log|);
    if vs != [] {
      SumByFirst(vs, Surplus);
    }
    if vs != [] && Total(log) < -env.initialDelta && vs[0].stakeDelta < 0 && delta < 0 {
      if vs[0].lastStakeDeltaEpoch == config.epoch {
        UnstakeWithinExcess(vs[1..], infos, config, env, log);
      } else {
        var stakes, target := StakesOf(vs[0].account, infos), Target(vs[0], delta);
        WithinTarget(vs[0], stakes, target, config, env, log);
        UnstakeWithinExcess(vs[1..], infos, config, env, UnstakeValidator(vs[0], stakes, target, config, env, log));
      }
    }
  }

  lemma {:induction false} StakeWithinExcess(vs: seq<ValidatorInfo>, config: Config, env: Environment, log: seq<Sent>)
    ensures Total(Stake(vs, config, env, log)) <= Total(log) + Excess(vs, false)
    decreases |vs|
  {
    var delta := env.Delta(|log|);
    if vs != [] {
      SumByFirst(vs, Lack);
      if WantsStake(vs[0], config, env.extraRuns(|log|)) && delta > 0 && delta >= config.minStake {
        var sent := Staking(vs[0], delta, env.responses(|log|).ok);
        TotalOfOneMore(log, sent);
        StakeWithinExcess(vs[1..], config, env, log + [sent]);
      } else {
        StakeWithinExcess(vs[1..], config, env, log);
      }
    }
  }

  /** No more is counted than the validators of the list are off their targets, all together. */
  lemma CountsNoMoreThanTargets(vs: seq<ValidatorInfo>, infos: seq<StakeInfo>, config: Config, env: Environment)
    ensures Total(Run(vs, infos, config, env)) <= Excess(vs, env.initialDelta < 0)
  {
    if env.initialDelta < 0 {
      SortByKeyProperties(vs, ByDelta);
      SumByPermutation(ByStakeDelta(vs), vs, Surplus);
      UnstakeWithinExcess(ByStakeDelta(vs), infos, config, env, []);
    } else {
      SortByKeyProperties(vs, ByScoreDown);
      SumByPermutation(ByScore(vs), vs, Lack);
      StakeWithinExcess(ByScore(vs), config, env, []);
    }
  }

  /** The stakes tried for a validator are its own that are not deactivating, the smallest first. */
  lemma SmallestFirst(account: Pubkey, infos: seq<StakeInfo>)
    ensures forall info :: info in StakesOf(account, infos) <==> info in infos && IsStakeOf(account, info)
    ensures SmallestComeFirst(StakesOf(account, infos))
  {
    SortByKeyProperties(Filter(account, infos), ByStake);
    SameElements(StakesOf(account, infos), Filter(account, infos));
    SameElements(Filter(account, infos), StakesOf(account, infos));
    FilterKeeps(account, infos);
    SortedBySize(StakesOf(account, infos));
  }

  lemma SortedBySize(stakes: seq<StakeInfo>)
    requires SortedByKey(stakes, ByStake) && forall info :: info in stakes ==> info.delegation.Some?
    ensures SmallestComeFirst(stakes)
  {
    forall i, j | 0 <= i < j < |stakes|
      ensures stakes[i].delegation.value.stake <= stakes[j].delegation.value.stake
    {
      assert ByStake(stakes[i]) <= ByStake(stakes[j]);
    }
  }

  /** The stake is delegated to this validator and is not deactivating. */
  predicate IsStakeOf(account: Pubkey, info: StakeInfo) {
    info.delegation.Some? && info.delegation.value.voter == account && !info.delegation.value.deactivating
  }

  ghost predicate SmallestComeFirst(stakes: seq<StakeInfo>) {
    forall i, j :: 0 <= i < j < |stakes| ==>
      && stakes[i].delegation.Some? && stakes[j].delegation.Some?
      && stakes[i].delegation.value.stake <= stakes[j].delegation.value.stake
  }

  lemma {:induction false} FilterKeeps(account: Pubkey, infos: seq<StakeInfo>)
    ensures forall info :: info in Filter(account, infos) <==> info in infos && IsStakeOf(account, info)
  {
    if infos != [] {
      FilterKeeps(account, infos[1..]);
      assert infos == [infos[0]] + infos[1..];
    }
  }

  /** Over a whole run, whatever fails, no more is counted than the first reading of the stake delta
      asked for, except for what transactions were counted for and did not do. */
  lemma CountsNoMoreThanNeeded(vs: seq<ValidatorInfo>, infos: seq<StakeInfo>, config: Config, env: Environment)
    ensures var log, up := Run(vs, infos, config, env), env.initialDelta < 0;
            && Total(log) <= (if up then -env.initialDelta else env.initialDelta) + Slack(env, up, log)
            && ((forall n :: 0 <= n < |log| ==> Gain(env, up, n) >= log[n].counted)
                ==> Total(log) <= if up then -env.initialDelta else env.initialDelta)
  {
    var log, up := Run(vs, infos, config, env), env.initialDelta < 0;
    if up {
      UnstakeBound(ByStakeDelta(vs), infos, config, env, []);
    } else if !NothingToDo(env.initialDelta, config) {
      StakeBound(ByScore(vs), config, env, []);
    }
    if forall n :: 0 <= n < |log| ==> Gain(env, up, n) >= log[n].counted {
      NoSlack(env, up, log);
    }
  }

  // ---------- When more than the shortfall can be counted ----------

  /** What a validator that can be unstaked from in this epoch has too much, if more than one lamport. */
  function LargeSurplus(epoch: nat): ValidatorInfo -> nat {
    (v: ValidatorInfo) => if v.lastStakeDeltaEpoch != epoch && v.stakeDelta <= -2 then -v.stakeDelta else 0
  }

  function IsLarge(epoch: nat): ValidatorInfo -> nat {
    (v: ValidatorInfo) => if v.lastStakeDeltaEpoch != epoch && v.stakeDelta <= -2 then 1 else 0
  }

  /** At most one validator has more than a lamport too much, or all of them together do not have more
      than the shortfall. */
  predicate SurplusIsCovered(vs: seq<ValidatorInfo>, epoch: nat, shortfall: nat) {
    SumBy(vs, IsLarge(epoch)) <= 1 || SumBy(vs, LargeSurplus(epoch)) <= shortfall
  }

  /** Whatever the stakes are, whatever happens, and however many transactions are allowed. */
  ghost predicate NeverCountsMore(vs: seq<ValidatorInfo>, epoch: nat, minStake: nat, shortfall: nat) {
    forall infos: seq<StakeInfo>, limit: nat, env: Environment :: env.initialDelta == 0 - shortfall ==>
      Total(Run(vs, infos, Config(epoch, minStake, limit), env)) <= shortfall
  }

  ghost predicate EachOnce(vs: seq<ValidatorInfo>) {
    forall i, j :: 0 <= i < j < |vs| ==> vs[i].account != vs[j].account
  }

  lemma {:induction false} NoneLarge(vs: seq<ValidatorInfo>, epoch: nat)
    ensures SumBy(vs, IsLarge(epoch)) == 0 <==> SumBy(vs, LargeSurplus(epoch)) == 0
    ensures SumBy(vs, IsLarge(epoch)) == 0 <==> forall v :: v in vs ==> LargeSurplus(epoch)(v) == 0
  {
    if vs != [] {
      NoneLarge(vs[..|vs| - 1], epoch);
      assert vs == vs[..|vs| - 1] + [vs[|vs| - 1]];
    }
  }

  /** Lamport by lamport, the shortfall is not overshot. */
  lemma {:induction false} SmallSteps(
    vs: seq<ValidatorInfo>, infos: seq<StakeInfo>, config: Config, env: Environment, log: seq<Sent>)
    requires forall v :: v in vs ==> LargeSurplus(config.epoch)(v) == 0
    requires Total(log) <= -env.initialDelta
    ensures Total(Unstake(vs, infos, config, env, log)) <= -env.initialDelta
    decreases |vs|
  {
    var delta := env.Delta(|log|);
    if vs != [] && Total(log) < -env.initialDelta && vs[0].stakeDelta < 0 && delta < 0 {
      assert LargeSurplus(config.epoch)(vs[0]) == 0;
      if vs[0].lastStakeDeltaEpoch == config.epoch {
        SmallSteps(vs[1..], infos, config, env, log);
      } else {
        var stakes, target := StakesOf(vs[0].account, infos), Target(vs[0], delta);
        WithinTarget(vs[0], stakes, target, config, env, log);
        SmallSteps(vs[1..], infos, config, env, UnstakeValidator(vs[0], stakes, target, config, env, log));
      }
    }
  }

  /** The validators with a large surplus come first. */
  lemma OnlySmallAfter(vs: seq<ValidatorInfo>, epoch: nat)
    requires vs != [] && SortedByKey(vs, ByDelta) && vs[0].stakeDelta > -2
    ensures forall v :: v in vs ==> LargeSurplus(epoch)(v) == 0
  {
    forall v | v in vs
      ensures LargeSurplus(epoch)(v) == 0
    {
      var i :| 0 <= i < |vs| && vs[i] == v;
      assert ByDelta(vs[0]) <= ByDelta(vs[i]);
    }
  }

  lemma {:induction false} CoveredIsEnough(
    vs: seq<ValidatorInfo>, infos: seq<StakeInfo>, config: Config, env: Environment, log: seq<Sent>)
    requires SortedByKey(vs, ByDelta) && Total(log) <= -env.initialDelta
    requires (log == [] && SumBy(vs, IsLarge(config.epoch)) <= 1)
          || Total(log) + SumBy(vs, LargeSurplus(config.epoch)) <= -env.initialDelta
    ensures Total(Unstake(vs, infos, config, env, log)) <= -env.initialDelta
    decreases |vs|
  {
    var delta := env.Delta(|log|);
    if vs != [] && Total(log) < -env.initialDelta && vs[0].stakeDelta < 0 && delta < 0 {
      SumByFirst(vs, IsLarge(config.epoch));
      SumByFirst(vs, LargeSurplus(config.epoch));
      if vs[0].lastStakeDeltaEpoch == config.epoch {
        CoveredIsEnough(vs[1..], infos, config, env, log);
      } else if vs[0].stakeDelta > -2 {
        OnlySmallAfter(vs, config.epoch);
        SmallSteps(vs, infos, config, env, log);
      } else {
        var stakes, target := StakesOf(vs[0].account, infos), Target(vs[0], delta);
        WithinTarget(vs[0], stakes, target, config, env, log);
        NoneLarge(vs[1..], config.epoch);
        CoveredIsEnough(vs[1..], infos, config, env, UnstakeValidator(vs[0], stakes, target, config, env, log));
      }
    }
  }

  /** What the only stake of the `i`-th validator has to hold, for the count to leap over the shortfall
      without stopping at it. */
  function Share(vs: seq<ValidatorInfo>, epoch: nat, shortfall: nat, i: nat): nat
    requires i < |vs| && shortfall > 0
    decreases i, 1
  {
    var surplus := LargeSurplus(epoch)(vs[i]);
    if SumBy(vs[..i], IsLarge(epoch)) == 0 then Min(surplus, shortfall - 1)
    else if surplus > 0 && Taken(vs, epoch, shortfall, i) + surplus == shortfall then surplus - 1
    else surplus
  }

  /** The shares of the first `n` validators. */
  function Taken(vs: seq<ValidatorInfo>, epoch: nat, shortfall: nat, n: nat): nat
    requires n <= |vs| && shortfall > 0
    decreases n, 0
  {
    if n == 0 then 0 else Taken(vs, epoch, shortfall, n - 1) + Share(vs, epoch, shortfall, n - 1)
  }

  lemma {:induction false} TakenShape(vs: seq<ValidatorInfo>, epoch: nat, shortfall: nat, n: nat)
    requires n <= |vs| && shortfall > 0
    ensures var taken, sum := Taken(vs, epoch, shortfall, n), SumBy(vs[..n], LargeSurplus(epoch));
            || taken > shortfall
            || (taken == sum && sum < shortfall)
            || (taken == shortfall - 1 && (sum == shortfall || SumBy(vs[..n], IsLarge(epoch)) == 1))
  {
    if n > 0 {
      TakenShape(vs, epoch, shortfall, n - 1);
      NoneLarge(vs[..n - 1], epoch);
      assert vs[..n][..n - 1] == vs[..n - 1];
    }
  }

  lemma {:induction false} TakenStays(vs: seq<ValidatorInfo>, epoch: nat, shortfall: nat, n: nat, m: nat)
    requires n <= m <= |vs| && shortfall > 0
    requires forall i :: n <= i < m ==> LargeSurplus(epoch)(vs[i]) == 0
    ensures Taken(vs, epoch, shortfall, m) == Taken(vs, epoch, shortfall, n)
  {
    if n < m {
      TakenStays(vs, epoch, shortfall, n, m - 1);
      assert LargeSurplus(epoch)(vs[m - 1]) == 0;
    }
  }

  lemma LargeAhead(vs: seq<ValidatorInfo>, epoch: nat, shortfall: nat, i: nat)
    requires SortedByKey(vs, ByDelta) && shortfall > 0 && i <= |vs|
    requires Taken(vs, epoch, shortfall, i) < Taken(vs, epoch, shortfall, |vs|)
    ensures i < |vs| && vs[i].stakeDelta <= -2
  {
    if i < |vs| && vs[i].stakeDelta > -2 {
      forall j | i <= j < |vs|
        ensures LargeSurplus(epoch)(vs[j]) == 0
      {
        assert ByDelta(vs[i]) <= ByDelta(vs[j]);
      }
      TakenStays(vs, epoch, shortfall, i, |vs|);
    }
  }

  /** Every validator has one stake, which holds its share. */
  function OneStakeEach(vs: seq<ValidatorInfo>, epoch: nat, shortfall: nat): seq<StakeInfo>
    requires shortfall > 0
  {
    seq(|vs|, i requires 0 <= i < |vs| => Holding(i, vs[i].account, Share(vs, epoch, shortfall, i)))
  }

  /** All transactions go well, and the stake delta that is read afterwards is as low as can be. */
  function AlwaysMore(vs: seq<ValidatorInfo>, shortfall: nat): Environment {
    var delta := if vs == [] then 0 else vs[0].stakeDelta;
    Environment(0 - shortfall, (n: nat) => Response(true, delta), (n: nat) => 0, (n: nat) => false)
  }

  lemma {:induction false} StakesOfOther(account: Pubkey, infos: seq<StakeInfo>)
    requires forall info :: info in infos ==> info.delegation.Some? && info.delegation.value.voter != account
    ensures Filter(account, infos) == []
  {
    if infos != [] {
      StakesOfOther(account, infos[1..]);
    }
  }

  lemma {:induction false} OnlyStakeOf(infos: seq<StakeInfo>, i: nat)
    requires i < |infos|
    requires forall j :: 0 <= j < |infos| ==> infos[j].delegation.Some? && !infos[j].delegation.value.deactivating
    requires forall j :: 0 <= j < |infos| && j != i ==>
               infos[j].delegation.value.voter != infos[i].delegation.value.voter
    ensures Filter(infos[i].delegation.value.voter, infos) == [infos[i]]
  {
    if i == 0 {
      StakesOfOther(infos[0].delegation.value.voter, infos[1..]);
    } else {
      OnlyStakeOf(infos[1..], i - 1);
    }
  }

  lemma StakesOfEach(vs: seq<ValidatorInfo>, epoch: nat, shortfall: nat, i: nat)
    requires EachOnce(vs) && shortfall > 0 && i < |vs|
    ensures var infos := OneStakeEach(vs, epoch, shortfall);
            StakesOf(vs[i].account, infos) == [infos[i]]
  {
    var infos := OneStakeEach(vs, epoch, shortfall);
    OnlyStakeOf(infos, i);
    SortOfSorted([infos[i]], ByStake);
  }

  /** The crank among these stakes, with the validators from the `i`-th on still to come. */
  function Course(vs: seq<ValidatorInfo>, config: Config, shortfall: nat, i: nat, log: seq<Sent>): seq<Sent>
    requires i <= |vs| && shortfall > 0
  {
    Unstake(vs[i..], OneStakeEach(vs, config.epoch, shortfall), config, AlwaysMore(vs, shortfall), log)
  }

  lemma Skips(vs: seq<ValidatorInfo>, config: Config, shortfall: nat, i: nat, log: seq<Sent>)
    requires SortedByKey(vs, ByDelta) && i < |vs|
    requires Total(log) < shortfall && vs[i].stakeDelta < 0 && vs[i].lastStakeDeltaEpoch == config.epoch
    ensures Course(vs, config, shortfall, i, log) == Course(vs, config, shortfall, i + 1, log)
    ensures Taken(vs, config.epoch, shortfall, i + 1) == Taken(vs, config.epoch, shortfall, i)
    ensures SumBy(vs[..i + 1], IsLarge(config.epoch)) == SumBy(vs[..i], IsLarge(config.epoch))
  {
    assert ByDelta(vs[0]) <= ByDelta(vs[i]);
    assert vs[i..][1..] == vs[i + 1..] && vs[..i + 1][..i] == vs[..i];
  }

  function ShareSent(vs: seq<ValidatorInfo>, epoch: nat, shortfall: nat, i: nat): Sent
    requires i < |vs| && shortfall > 0
  {
    Sent(DeactivateStake(i, Pubkey(i), vs[i].index), Share(vs, epoch, shortfall, i))
  }

  /** Before the shortfall is reached, the crank takes the share of the next validator. */
  lemma TakesShare(vs: seq<ValidatorInfo>, config: Config, shortfall: nat, i: nat, log: seq<Sent>)
    requires SortedByKey(vs, ByDelta) && EachOnce(vs) && config.limit == 0 && i < |vs|
    requires Total(log) < shortfall && LargeSurplus(config.epoch)(vs[i]) > 0
    requires log == [] ==> SumBy(vs[..i], IsLarge(config.epoch)) == 0
    ensures Course(vs, config, shortfall, i, log)
         == Course(vs, config, shortfall, i + 1, log + [ShareSent(vs, config.epoch, shortfall, i)])
  {
    var infos, env := OneStakeEach(vs, config.epoch, shortfall), AlwaysMore(vs, shortfall);
    ShareIsCounted(vs, config, shortfall, i, log);
    StakesOfEach(vs, config.epoch, shortfall, i);
    UnstakesFromOne(vs[i], vs[i + 1..], infos, config, env, log, infos[i]);
    assert vs[i..] == [vs[i]] + vs[i + 1..];
  }

  lemma ShareIsCounted(vs: seq<ValidatorInfo>, config: Config, shortfall: nat, i: nat, log: seq<Sent>)
    requires SortedByKey(vs, ByDelta) && i < |vs|
    requires 0 < shortfall && LargeSurplus(config.epoch)(vs[i]) > 0
    requires log == [] ==> SumBy(vs[..i], IsLarge(config.epoch)) == 0
    ensures var target := Target(vs[i], AlwaysMore(vs, shortfall).Delta(|log|));
            && target > 0
            && Deactivation(vs[i], OneStakeEach(vs, config.epoch, shortfall)[i], target, true)
               == ShareSent(vs, config.epoch, shortfall, i)
  {
    assert ByDelta(vs[0]) <= ByDelta(vs[i]);
  }

  /** A validator with one stake, when the crank comes to it without a limit or a time limit. */
  lemma {:induction false} UnstakesFromOne(
    v: ValidatorInfo, rest: seq<ValidatorInfo>, infos: seq<StakeInfo>, config: Config, env: Environment,
    log: seq<Sent>, info: StakeInfo)
    requires StakesOf(v.account, infos) == [info] && config.limit == 0 && !env.late(|rest|)
    requires Total(log) < -env.initialDelta && v.stakeDelta < 0 && env.Delta(|log|) < 0
    requires v.lastStakeDeltaEpoch != config.epoch
    ensures Unstake([v] + rest, infos, config, env, log)
         == Unstake(rest, infos, config, env,
                    log + [Deactivation(v, info, Target(v, env.Delta(|log|)), env.responses(|log|).ok)])
  {
    FromOneStake(v, info, Target(v, env.Delta(|log|)), config, env, log);
    assert ([v] + rest)[1..] == rest;
  }

  lemma StopsBeyond(vs: seq<ValidatorInfo>, config: Config, shortfall: nat, i: nat, log: seq<Sent>)
    requires i <= |vs| && 0 < shortfall <= Total(log)
    ensures Course(vs, config, shortfall, i, log) == log
  {
  }

  lemma {:induction false} LeapsOver(
    vs: seq<ValidatorInfo>, config: Config, shortfall: nat, i: nat, log: seq<Sent>)
    requires SortedByKey(vs, ByDelta) && EachOnce(vs) && config.limit == 0 && i <= |vs|
    requires 0 < shortfall < Taken(vs, config.epoch, shortfall, |vs|)
    requires Total(log) == Taken(vs, config.epoch, shortfall, i) < shortfall
    requires log == [] ==> SumBy(vs[..i], IsLarge(config.epoch)) == 0
    ensures Total(Course(vs, config, shortfall, i, log)) > shortfall
    decreases |vs| - i
  {
    LargeAhead(vs, config.epoch, shortfall, i);
    if vs[i].lastStakeDeltaEpoch == config.epoch {
      Skips(vs, config, shortfall, i, log);
      LeapsOver(vs, config, shortfall, i + 1, log);
    } else {
      var share := ShareSent(vs, config.epoch, shortfall, i);
      TakesShare(vs, config, shortfall, i, log);
      TotalOfOneMore(log, share);
      TakenShape(vs, config.epoch, shortfall, i + 1);
      if Total(log + [share]) < shortfall {
        LeapsOver(vs, config, shortfall, i + 1, log + [share]);
      } else {
        StopsBeyond(vs, config, shortfall, i + 1, log + [share]);
      }
    }
  }

  lemma NotCoveredIsLeapt(vs: seq<ValidatorInfo>, config: Config, shortfall: nat)
    requires SortedByKey(vs, ByDelta) && EachOnce(vs) && config.limit == 0 && shortfall > 0
    requires !SurplusIsCovered(vs, config.epoch, shortfall)
    ensures Total(Course(vs, config, shortfall, 0, [])) > shortfall
  {
    assert vs[..|vs|] == vs;
    TakenShape(vs, config.epoch, shortfall, |vs|);
    LeapsOver(vs, config, shortfall, 0, []);
  }

  lemma SortKeepsCondition(vs: seq<ValidatorInfo>, epoch: nat, shortfall: nat)
    ensures SortedByKey(ByStakeDelta(vs), ByDelta)
    ensures SurplusIsCovered(ByStakeDelta(vs), epoch, shortfall) <==> SurplusIsCovered(vs, epoch, shortfall)
    ensures EachOnce(vs) ==> EachOnce(ByStakeDelta(vs))
  {
    var sorted := ByStakeDelta(vs);
    SortByKeyProperties(vs, ByDelta);
    SumByPermutation(sorted, vs, IsLarge(epoch));
    SumByPermutation(sorted, vs, LargeSurplus(epoch));
    if EachOnce(vs) {
      forall i, j | 0 <= i < j < |sorted|
        ensures sorted[i].account != sorted[j].account
      {
        var a, b := TwoPlaces(vs, sorted, i, j);
      }
    }
  }

  /** If the surplus is covered, no more is counted than the shortfall, whatever happens. */
  lemma CoveredNeverCountsMore(vs: seq<ValidatorInfo>, epoch: nat, minStake: nat, shortfall: nat)
    requires shortfall > 0 && SurplusIsCovered(vs, epoch, shortfall)
    ensures NeverCountsMore(vs, epoch, minStake, shortfall)
  {
    SortKeepsCondition(vs, epoch, shortfall);
    forall infos: seq<StakeInfo>, limit: nat, env: Environment | env.initialDelta == 0 - shortfall
      ensures Total(Run(vs, infos, Config(epoch, minStake, limit), env)) <= shortfall
    {
      CoveredIsEnough(ByStakeDelta(vs), infos, Config(epoch, minStake, limit), env, []);
    }
  }

  /** The list of validators holds each account once; then the condition is exact. */
  lemma NeverCountsMoreIff(vs: seq<ValidatorInfo>, epoch: nat, minStake: nat, shortfall: nat)
    requires shortfall > 0 && EachOnce(vs)
    ensures NeverCountsMore(vs, epoch, minStake, shortfall) <==> SurplusIsCovered(vs, epoch, shortfall)
  {
    if SurplusIsCovered(vs, epoch, shortfall) {
      CoveredNeverCountsMore(vs, epoch, minStake, shortfall);
    } else {
      var sorted, config := ByStakeDelta(vs), Config(epoch, minStake, 0);
      SortKeepsCondition(vs, epoch, shortfall);
      NotCoveredIsLeapt(sorted, config, shortfall);
      assert sorted[0..] == sorted;
      var infos, env := OneStakeEach(sorted, epoch, shortfall), AlwaysMore(sorted, shortfall);
      assert Total(Run(vs, infos, config, env)) > shortfall;
    }
  }

  /** A course of events where the surplus is not covered: a transaction goes well without unstaking
      anything, and then more is counted for two validators, together, than the shortfall. That happens
      when transactions are only simulated, when others act on the same stakes, or on stale readings. */
  lemma CountedButNotDone()
    ensures exists vs: seq<ValidatorInfo>, infos: seq<StakeInfo>, config: Config, env: Environment ::
              env.initialDelta < 0 && Total(Run(vs, infos, config, env)) > -env.initialDelta
  {
    var a, b := ValidatorInfo(0, Pubkey(1), 0, 0, -10), ValidatorInfo(1, Pubkey(2), 0, 0, -6);
    var x, y := Holding(0, Pubkey(1), 10), Holding(1, Pubkey(2), 6);
    var vs, infos, config := [a, b], [x, y], Config(1, 0, 0);
    var env := Environment(-12, (n: nat) => Response(true, -12), (n: nat) => 0, (n: nat) => false);
    SortOfSorted(vs, ByDelta);
    StakesOfOne(x, y, Pubkey(1));
    StakesOfOne(x, y, Pubkey(2));
    var first, second := Deactivation(a, x, 10, true), Deactivation(b, y, 6, true);
    FromOneStake(a, x, 10, config, env, []);
    FromOneStake(b, y, 6, config, env, [first]);
    TotalOfOneMore([], first);
    TotalOfOneMore([first], second);
    assert vs[1..] == [b] && [b][1..] == [];
    assert Unstake([b], infos, config, env, [first]) == [first, second];
    assert Unstake(vs, infos, config, env, []) == [first, second];
    assert Run(vs, infos, config, env) == [first] + [second];
  }

  lemma FromOneStake(
    v: ValidatorInfo, info: StakeInfo, left: nat, config: Config, env: Environment, log: seq<Sent>)
    requires left > 0 && config.limit == 0
    ensures UnstakeValidator(v, [info], left, config, env, log)
            == log + [Deactivation(v, info, left, env.responses(|log|).ok)]
  {
    assert [info][1..] == [];
  }

  /** An active stake of the validator. */
  function Holding(index: nat, voter: Pubkey, amount: nat): StakeInfo {
    StakeInfo(index, StakeRecord(Pubkey(index), amount, 0), Some(Delegation(voter, amount, false, 0, amount, 0, 0)),
      amount)
  }

  lemma StakesOfOne(x: StakeInfo, y: StakeInfo, account: Pubkey)
    requires x.delegation.Some? && y.delegation.Some? && !x.delegation.value.deactivating
             && !y.delegation.value.deactivating
    requires x.delegation.value.voter != y.delegation.value.voter
    ensures x.delegation.value.voter == account ==> StakesOf(account, [x, y]) == [x]
    ensures y.delegation.value.voter == account ==> StakesOf(account, [x, y]) == [y]
  {
    assert [x, y][1..] == [y] && [y][1..] == [];
    assert Filter(account, [y]) == if y.delegation.value.voter == account then [y] else [];
    SortOfSorted(Filter(account, [x, y]), ByStake);
  }
}
