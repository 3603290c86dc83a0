/** The unstaking crank of stake_delta.rs against the program of deactivate_stake.rs, with nobody else at
    work: what is counted then stays within what is unstaked, whatever transactions are lost. */
module UndisturbedCrank {
  import opened Arithmetic
  import opened Collections
  import opened StakeTypes
  import opened StakesInfo
  import Client = StakeDelta
  import Chain = DeactivateStake

  /** What a transaction comes to on chain, and whether the client is told that it went well. */
  datatype Answer = Answer(effect: Chain.Effect, ok: bool)

  /** What lies outside the crank: the answer to the `n`-th transaction, the address it names for a split,
      and whether the time limit is over. */
  datatype Outside = Outside(
    answer: (Chain.State, Chain.Call, nat) -> Answer, split: nat -> Pubkey, late: nat -> bool)

  /** Nothing happens but what the program does: a transaction that it refuses has no effect and is
      reported as failed; any other one may be lost, which is reported, or land, reported or not. */
  predicate Honest(a: Answer, s: Chain.State, t: Chain.Terms, c: Chain.Call) {
    || a == Answer(Chain.Effect(s, 0), false)
    || (Chain.Outcome(s, t, c).Ok? && a.effect == Chain.Outcome(s, t, c).value)
  }

  predicate HonestAt(o: Outside, t: Chain.Terms, s: Chain.State, c: Chain.Call, n: nat) {
    Honest(o.answer(s, c, n), s, t, c)
  }

  /** Nobody else is at work. */
  ghost predicate Undisturbed(o: Outside, t: Chain.Terms) {
    forall s, c, n {:trigger HonestAt(o, t, s, c, n)} :: HonestAt(o, t, s, c, n)
  }

  /** A run so far: the state on chain, what has been unstaked and what the client has counted, for each
      transaction and in all, and what it was told and read after each. */
  datatype Progress = Progress(
    state: Chain.State, moved: nat, counted: nat, log: seq<Client.Sent>, responses: seq<Client.Response>)

  function CallFor(v: Client.ValidatorInfo, info: StakeInfo, split: Pubkey): Chain.Call {
    Chain.Call(info.index, info.record.stakeAccount, v.index, split)
  }

  /** One transaction, for a stake from which `left` is still to be had. */
  function Attempt(
    p: Progress, t: Chain.Terms, o: Outside, v: Client.ValidatorInfo, info: StakeInfo, left: nat): Progress
  {
    var a := o.answer(p.state, CallFor(v, info, o.split(|p.log|)), |p.log|);
    var sent := Client.Deactivation(v, info, left, a.ok);
    Progress(
      a.effect.state, p.moved + a.effect.moved, p.counted + sent.counted, p.log + [sent],
      p.responses + [Client.Response(a.ok, Chain.StakeDelta(a.effect.state, t))])
  }

  /** The crank on the stakes of one validator. */
  function UnstakeValidator(
    p: Progress, t: Chain.Terms, o: Outside, config: Client.Config, v: Client.ValidatorInfo,
    stakes: seq<StakeInfo>, left: nat): Progress
    decreases |stakes|
  {
    if stakes == [] || left == 0 then p
    else
      var p' := Attempt(p, t, o, v, stakes[0], left);
      if Client.LimitReached(config, |p'.log|) then p'
      else UnstakeValidator(p', t, o, config, v, stakes[1..], left - (p'.counted - p.counted))
  }

  /** The crank on all validators. */
  function Unstake(
    p: Progress, t: Chain.Terms, o: Outside, config: Client.Config, shortfall: nat,
    vs: seq<Client.ValidatorInfo>, infos: seq<StakeInfo>): Progress
    decreases |vs|
  {
    var delta := Chain.StakeDelta(p.state, t);
    if vs == [] || p.counted >= shortfall || vs[0].stakeDelta >= 0 || delta >= 0 then p
    else if vs[0].lastStakeDeltaEpoch == config.epoch then Unstake(p, t, o, config, shortfall, vs[1..], infos)
    else
      var stakes := Client.StakesOf(vs[0].account, infos);
      var p' := UnstakeValidator(p, t, o, config, vs[0], stakes, Client.Target(vs[0], delta));
      if Client.LimitReached(config, |p'.log|) || o.late(|vs| - 1) then p'
      else Unstake(p', t, o, config, shortfall, vs[1..], infos)
  }

  // ---------- It is the crank ----------

  ghost predicate Consistent(p: Progress) {
    |p.responses| == |p.log| && p.counted == Client.Total(p.log)
  }

  /** The environment has given the responses of the run. */
  ghost predicate Agrees(env: Client.Environment, p: Progress) {
    forall n :: 0 <= n < |p.responses| ==> env.responses(n) == p.responses[n]
  }

  /** The run has gone on from `p` to `p'`. */
  ghost predicate Extends(p: Progress, p': Progress) {
    Consistent(p') && p.responses <= p'.responses && p.moved <= p'.moved && p.counted <= p'.counted
  }

  lemma AttemptExtends(
    p: Progress, t: Chain.Terms, o: Outside, v: Client.ValidatorInfo, info: StakeInfo, left: nat)
    requires Consistent(p)
    ensures var p' := Attempt(p, t, o, v, info, left);
            Extends(p, p') && p'.counted <= p.counted + left
  {
    var p' := Attempt(p, t, o, v, info, left);
    Client.TotalOfOneMore(p.log, p'.log[|p.log|]);
  }

  lemma {:induction false} ValidatorExtends(
    p: Progress, t: Chain.Terms, o: Outside, config: Client.Config, v: Client.ValidatorInfo,
    stakes: seq<StakeInfo>, left: nat)
    requires Consistent(p)
    ensures var p' := UnstakeValidator(p, t, o, config, v, stakes, left);
            Extends(p, p') && p'.counted <= p.counted + left
    decreases |stakes|
  {
    if stakes != [] && left > 0 {
      var p' := Attempt(p, t, o, v, stakes[0], left);
      AttemptExtends(p, t, o, v, stakes[0], left);
      ValidatorExtends(p', t, o, config, v, stakes[1..], left - (p'.counted - p.counted));
    }
  }

  /** What the client reads in the environment is what is on chain. */
  ghost predicate Reads(env: Client.Environment, p: Progress, t: Chain.Terms) {
    env.Delta(|p.log|) == Chain.StakeDelta(p.state, t)
  }

  /** One transaction of the client gets the response of the chain. */
  lemma AttemptIsClient(
    p: Progress, t: Chain.Terms, o: Outside, v: Client.ValidatorInfo, info: StakeInfo, left: nat,
    env: Client.Environment, last: Progress)
    requires Consistent(p) && Extends(Attempt(p, t, o, v, info, left), last) && Agrees(env, last)
    ensures var p' := Attempt(p, t, o, v, info, left);
            var sent := Client.Deactivation(v, info, left, env.responses(|p.log|).ok);
            && Reads(env, p', t) && p'.log == p.log + [sent] && p'.counted == p.counted + sent.counted
  {
    var n, p' := |p.log|, Attempt(p, t, o, v, info, left);
    assert last.responses[n] == p'.responses[n];
  }

  lemma {:induction false} ValidatorIsCrank(
    p: Progress, t: Chain.Terms, o: Outside, config: Client.Config, v: Client.ValidatorInfo,
    stakes: seq<StakeInfo>, left: nat, env: Client.Environment, last: Progress)
    requires Consistent(p) && Reads(env, p, t) && Agrees(env, last)
    requires Extends(UnstakeValidator(p, t, o, config, v, stakes, left), last)
    ensures var p' := UnstakeValidator(p, t, o, config, v, stakes, left);
            && p'.log == Client.UnstakeValidator(v, stakes, left, config, env, p.log)
            && Reads(env, p', t)
    decreases |stakes|
  {
    if stakes != [] && left > 0 {
      var p' := Attempt(p, t, o, v, stakes[0], left);
      AttemptExtends(p, t, o, v, stakes[0], left);
      var rest := left - (p'.counted - p.counted);
      ValidatorExtends(p', t, o, config, v, stakes[1..], rest);
      AttemptIsClient(p, t, o, v, stakes[0], left, env, last);
      if Client.LimitReached(config, |p'.log|) {
        assert UnstakeValidator(p, t, o, config, v, stakes, left) == p';
      } else {
        assert UnstakeValidator(p, t, o, config, v, stakes, left)
            == UnstakeValidator(p', t, o, config, v, stakes[1..], rest);
        ValidatorIsCrank(p', t, o, config, v, stakes[1..], rest, env, last);
      }
    }
  }

  lemma {:induction false} RunExtends(
    p: Progress, t: Chain.Terms, o: Outside, config: Client.Config, shortfall: nat,
    vs: seq<Client.ValidatorInfo>, infos: seq<StakeInfo>)
    requires Consistent(p)
    ensures Extends(p, Unstake(p, t, o, config, shortfall, vs, infos))
    decreases |vs|
  {
    var delta := Chain.StakeDelta(p.state, t);
    if vs != [] && p.counted < shortfall && vs[0].stakeDelta < 0 && delta < 0 {
      if vs[0].lastStakeDeltaEpoch == config.epoch {
        RunExtends(p, t, o, config, shortfall, vs[1..], infos);
      } else {
        var stakes, target := Client.StakesOf(vs[0].account, infos), Client.Target(vs[0], delta);
        ValidatorExtends(p, t, o, config, vs[0], stakes, target);
        RunExtends(UnstakeValidator(p, t, o, config, vs[0], stakes, target), t, o, config, shortfall, vs[1..], infos);
      }
    }
  }

  lemma {:induction false} RunIsCrank(
    p: Progress, t: Chain.Terms, o: Outside, config: Client.Config, shortfall: nat,
    vs: seq<Client.ValidatorInfo>, infos: seq<StakeInfo>, env: Client.Environment)
    requires Consistent(p) && Reads(env, p, t)
    requires env.initialDelta == 0 - shortfall && env.late == o.late
    requires Agrees(env, Unstake(p, t, o, config, shortfall, vs, infos))
    ensures Unstake(p, t, o, config, shortfall, vs, infos).log == Client.Unstake(vs, infos, config, env, p.log)
    decreases |vs|
  {
    var delta := Chain.StakeDelta(p.state, t);
    if vs != [] && p.counted < shortfall && vs[0].stakeDelta < 0 && delta < 0 {
      if vs[0].lastStakeDeltaEpoch == config.epoch {
        RunIsCrank(p, t, o, config, shortfall, vs[1..], infos, env);
      } else {
        var stakes, target := Client.StakesOf(vs[0].account, infos), Client.Target(vs[0], delta);
        var p' := UnstakeValidator(p, t, o, config, vs[0], stakes, target);
        ValidatorExtends(p, t, o, config, vs[0], stakes, target);
        RunExtends(p', t, o, config, shortfall, vs[1..], infos);
        ValidatorIsCrank(p, t, o, config, vs[0], stakes, target, env,
                         Unstake(p, t, o, config, shortfall, vs, infos));
        if !(Client.LimitReached(config, |p'.log|) || o.late(|vs| - 1)) {
          RunIsCrank(p', t, o, config, shortfall, vs[1..], infos, env);
        }
      }
    }
  }

  // ---------- What one transaction does ----------

  /** One deactivation touches one record and one validator, and the balances follow. */
  lemma Frame(s: Chain.State, t: Chain.Terms, c: Chain.Call)
    requires Chain.Outcome(s, t, c).Ok?
    ensures var effect := Chain.Outcome(s, t, c).value;
            var s' := effect.state;
            && |s'.stakes| >= |s.stakes| && |s'.validators| == |s.validators|
            && (forall i :: 0 <= i < |s.stakes| && i != c.stakeIndex ==> s'.stakes[i] == s.stakes[i])
            && (forall i :: 0 <= i < |s.validators| && i != c.validatorIndex ==> s'.validators[i] == s.validators[i])
            && s'.totalActive == SaturatingSub(s.totalActive, effect.moved)
            && SameBut(s.validators[c.validatorIndex], s'.validators[c.validatorIndex], effect.moved)
  {
  }

  /** The validator has lost `moved`, and perhaps has had its split. */
  predicate SameBut(v: Chain.Validator, v': Chain.Validator, moved: nat) {
    v'.account == v.account && v'.score == v.score && v'.activeBalance == SaturatingSub(v.activeBalance, moved)
  }

  /** What a deactivation with success moves: what is wanted, or the whole stake; only a split marks the
      validator, and it moves all that is wanted. */
  lemma MovesWanted(s: Chain.State, t: Chain.Terms, c: Chain.Call)
    requires Chain.Outcome(s, t, c).Ok? && t.minStake > 0
    ensures var effect, v := Chain.Outcome(s, t, c).value, s.validators[c.validatorIndex];
            var wanted := Chain.Wanted(s, t, v);
            && (effect.moved >= Min(s.stakes[c.stakeIndex].lastUpdateDelegated, wanted)
                || v.lastStakeDeltaEpoch == t.epoch)
            && (effect.state.validators[c.validatorIndex].lastStakeDeltaEpoch == t.epoch ==>
                  v.lastStakeDeltaEpoch == t.epoch || effect.moved >= wanted)
  {
  }

  // ---------- One validator ----------

  /** From `s` on, `moved` has been unstaked from this validator and nothing else has happened; if it has
      been marked for the epoch, all that was wanted of it is gone. */
  ghost predicate Underway(s: Chain.State, s': Chain.State, t: Chain.Terms, index: nat, moved: nat)
    requires index < |s.validators|
  {
    && |s'.validators| == |s.validators|
    && Chain.Shortfall(s', t) == SaturatingSub(Chain.Shortfall(s, t), moved)
    && moved <= Chain.Shortfall(s, t) + SaturatingSub(2 * t.minStake, 1)
    && (Chain.Shortfall(s', t) > 0 ==> s'.totalActive + moved == s.totalActive)
    && SameBut(s.validators[index], s'.validators[index], moved)
    && (s'.validators[index].lastStakeDeltaEpoch == t.epoch ==>
          moved >= Chain.Wanted(s, t, s.validators[index]))
    && forall i :: 0 <= i < |s.validators| && i != index ==> s'.validators[i] == s.validators[i]
  }

  /** What is wanted goes down by what is moved: the target of the validator stays where it is. */
  lemma WantedLeft(s: Chain.State, s': Chain.State, t: Chain.Terms, index: nat, moved: nat)
    requires index < |s.validators| && Underway(s, s', t, index, moved)
    requires Chain.Shortfall(s', t) > 0 && s.totalActive >= Chain.Shortfall(s, t)
    ensures Chain.Wanted(s', t, s'.validators[index])
         == SaturatingSub(Chain.Wanted(s, t, s.validators[index]), moved)
  {
    assert SaturatingSub(s'.totalActive, Chain.Shortfall(s', t)) == SaturatingSub(s.totalActive, Chain.Shortfall(s, t));
  }

  lemma StaysUnderway(s: Chain.State, s': Chain.State, t: Chain.Terms, c: Chain.Call, moved: nat, a: Answer)
    requires t.minStake > 0 && s.totalActive >= Chain.Shortfall(s, t) && Honest(a, s', t, c)
    requires c.validatorIndex < |s.validators| && Underway(s, s', t, c.validatorIndex, moved)
    ensures Underway(s, a.effect.state, t, c.validatorIndex, moved + a.effect.moved)
  {
    if a != Answer(Chain.Effect(s', 0), false) {
      Frame(s', t, c);
      MovesWanted(s', t, c);
      Chain.MovesTheDelta(s', t, c);
      WantedLeft(s, s', t, c.validatorIndex, moved);
    }
  }

  /** The record of a stake is as it was in the snapshot. */
  predicate Holds(s: Chain.State, info: StakeInfo) {
    info.index < |s.stakes| && s.stakes[info.index] == info.record
  }

  /** Of the `wanted`, all but `left` is counted, and that is covered by what is moved. */
  ghost predicate Covered(
    s: Chain.State, s': Chain.State, t: Chain.Terms, index: nat, wanted: nat, left: int, moved: int)
  {
    && t.minStake > 0 && s.totalActive >= Chain.Shortfall(s, t) && left >= 0 && moved >= 0
    && index < |s.validators| && Underway(s, s', t, index, moved)
    && wanted == Chain.Wanted(s, t, s.validators[index])
    && left <= wanted <= left + moved
  }

  lemma AttemptCovers(
    s: Chain.State, p: Progress, t: Chain.Terms, o: Outside, v: Client.ValidatorInfo, info: StakeInfo,
    wanted: nat, left: nat, moved: nat)
    requires Covered(s, p.state, t, v.index, wanted, left, moved) && Holds(p.state, info) && Undisturbed(o, t)
    ensures var p' := Attempt(p, t, o, v, info, left);
            Covered(s, p'.state, t, v.index, wanted,
                    left - (p'.counted - p.counted), moved + (p'.moved - p.moved))
  {
    var n := |p.log|;
    var c := CallFor(v, info, o.split(n));
    assert HonestAt(o, t, p.state, c, n);
    var a := o.answer(p.state, c, n);
    StaysUnderway(s, p.state, t, c, moved, a);
    if a != Answer(Chain.Effect(p.state, 0), false) {
      MovesWanted(p.state, t, c);
      WantedLeft(s, p.state, t, v.index, moved);
    }
  }

  /** The stakes stand at different places of the list. */
  ghost predicate Apart(infos: seq<StakeInfo>) {
    forall i, j :: 0 <= i < j < |infos| ==> infos[i].index != infos[j].index
  }

  /** A transaction leaves the records of all other stakes alone. */
  ghost predicate OthersSame(s: Chain.State, s': Chain.State, stakes: seq<StakeInfo>) {
    && |s'.stakes| >= |s.stakes|
    && forall i :: 0 <= i < |s.stakes| && (forall info :: info in stakes ==> info.index != i) ==>
         s'.stakes[i] == s.stakes[i]
  }

  lemma AttemptSparesOthers(
    p: Progress, t: Chain.Terms, o: Outside, v: Client.ValidatorInfo, info: StakeInfo, left: nat)
    requires Undisturbed(o, t)
    ensures OthersSame(p.state, Attempt(p, t, o, v, info, left).state, [info])
  {
    var n := |p.log|;
    var c := CallFor(v, info, o.split(n));
    assert info in [info];
    assert HonestAt(o, t, p.state, c, n);
    if o.answer(p.state, c, n) != Answer(Chain.Effect(p.state, 0), false) {
      Frame(p.state, t, c);
    }
  }

  lemma {:induction false} ValidatorSparesOthers(
    p: Progress, t: Chain.Terms, o: Outside, config: Client.Config, v: Client.ValidatorInfo,
    stakes: seq<StakeInfo>, left: nat)
    requires Undisturbed(o, t)
    ensures OthersSame(p.state, UnstakeValidator(p, t, o, config, v, stakes, left).state, stakes)
    decreases |stakes|
  {
    if stakes != [] && left > 0 {
      var p' := Attempt(p, t, o, v, stakes[0], left);
      AttemptSparesOthers(p, t, o, v, stakes[0], left);
      assert stakes[0] in stakes && forall info :: info in stakes[1..] ==> info in stakes;
      if !Client.LimitReached(config, |p'.log|) {
        ValidatorSparesOthers(p', t, o, config, v, stakes[1..], left - (p'.counted - p.counted));
      }
    }
  }

  /** The records of all these stakes, at different places, are as in the snapshot. */
  ghost predicate AllHold(s: Chain.State, stakes: seq<StakeInfo>) {
    Apart(stakes) && forall info :: info in stakes ==> Holds(s, info)
  }

  lemma RestHolds(s: Chain.State, s': Chain.State, stakes: seq<StakeInfo>)
    requires stakes != [] && AllHold(s, stakes) && OthersSame(s, s', [stakes[0]])
    ensures AllHold(s', stakes[1..])
  {
    forall info | info in stakes[1..]
      ensures Holds(s', info)
    {
      var i :| 0 <= i < |stakes| - 1 && stakes[1..][i] == info;
      assert stakes[i + 1] == info && Holds(s, info);
    }
  }

  /** From one validator no more is counted than its target, and no more than is unstaked from it. */
  lemma {:induction false} ValidatorCovers(
    s: Chain.State, p: Progress, t: Chain.Terms, o: Outside, config: Client.Config, v: Client.ValidatorInfo,
    stakes: seq<StakeInfo>, wanted: nat, left: nat, moved: nat)
    requires Covered(s, p.state, t, v.index, wanted, left, moved) && AllHold(p.state, stakes) && Undisturbed(o, t)
    ensures var p' := UnstakeValidator(p, t, o, config, v, stakes, left);
            Covered(s, p'.state, t, v.index, wanted,
                    left - (p'.counted - p.counted), moved + (p'.moved - p.moved))
    decreases |stakes|
  {
    if stakes != [] && left > 0 {
      var p' := Attempt(p, t, o, v, stakes[0], left);
      AttemptCovers(s, p, t, o, v, stakes[0], wanted, left, moved);
      if Client.LimitReached(config, |p'.log|) {
        assert UnstakeValidator(p, t, o, config, v, stakes, left) == p';
      } else {
        var rest, moved' := left - (p'.counted - p.counted), moved + (p'.moved - p.moved);
        assert UnstakeValidator(p, t, o, config, v, stakes, left)
            == UnstakeValidator(p', t, o, config, v, stakes[1..], rest);
        AttemptSparesOthers(p, t, o, v, stakes[0], left);
        RestHolds(p.state, p'.state, stakes);
        ValidatorCovers(s, p', t, o, config, v, stakes[1..], wanted, rest, moved');
      }
    }
  }

  // ---------- All validators ----------

  predicate StakedTo(info: StakeInfo, account: Pubkey) {
    info.delegation.Some? && info.delegation.value.voter == account
  }

  /** What the client has computed for the validator is still right: nothing was unstaked from it, and
      the target of the whole pool has not moved. */
  predicate UpToDate(s: Chain.State, t: Chain.Terms, v: Client.ValidatorInfo) {
    && v.index < |s.validators|
    && s.validators[v.index].lastStakeDeltaEpoch == v.lastStakeDeltaEpoch
    && (Chain.Shortfall(s, t) > 0 ==>
          && s.totalActive >= Chain.Shortfall(s, t)
          && v.stakeDelta == Chain.StakeTarget(s.validators[v.index], s.totalActive - Chain.Shortfall(s, t), t)
                             - s.validators[v.index].activeBalance)
  }

  ghost predicate RecordsHold(s: Chain.State, account: Pubkey, infos: seq<StakeInfo>) {
    forall info :: info in infos && StakedTo(info, account) ==> Holds(s, info)
  }

  /** The validators still to come, and their stakes, are as they were. */
  ghost predicate Untouched(
    s: Chain.State, t: Chain.Terms, vs: seq<Client.ValidatorInfo>, infos: seq<StakeInfo>)
  {
    && (forall i, j :: 0 <= i < j < |vs| ==> vs[i].index != vs[j].index && vs[i].account != vs[j].account)
    && forall v :: v in vs ==> UpToDate(s, t, v) && RecordsHold(s, v.account, infos)
  }

  lemma StakesHold(s: Chain.State, account: Pubkey, infos: seq<StakeInfo>)
    requires Apart(infos) && RecordsHold(s, account, infos)
    ensures AllHold(s, Client.StakesOf(account, infos))
  {
    var filtered, stakes := Client.Filter(account, infos), Client.StakesOf(account, infos);
    FilterApart(account, infos);
    SortByKeyProperties(filtered, Client.ByStake);
    Client.SmallestFirst(account, infos);
    forall i, j | 0 <= i < j < |stakes|
      ensures stakes[i].index != stakes[j].index
    {
      var a, b := TwoPlaces(filtered, stakes, i, j);
    }
    forall info | info in stakes
      ensures Holds(s, info)
    {
      assert StakedTo(info, account);
    }
  }

  lemma {:induction false} FilterApart(account: Pubkey, infos: seq<StakeInfo>)
    requires Apart(infos)
    ensures Apart(Client.Filter(account, infos))
  {
    if infos != [] {
      FilterApart(account, infos[1..]);
      Client.FilterKeeps(account, infos[1..]);
      forall info | info in Client.Filter(account, infos[1..])
        ensures info.index != infos[0].index
      {
        var i :| 0 <= i < |infos| - 1 && infos[1..][i] == info;
        assert infos[i + 1] == info;
      }
    }
  }

  /** The client's target for a validator is what the program wants of it. */
  lemma TargetIsWanted(s: Chain.State, t: Chain.Terms, v: Client.ValidatorInfo)
    requires UpToDate(s, t, v) && v.stakeDelta < 0 && Chain.StakeDelta(s, t) < 0
    requires v.lastStakeDeltaEpoch != t.epoch && t.minStake > 0
    ensures Client.Target(v, Chain.StakeDelta(s, t)) == Chain.Wanted(s, t, s.validators[v.index])
    ensures var wanted := Chain.Wanted(s, t, s.validators[v.index]);
            Covered(s, s, t, v.index, wanted, wanted, 0)
  {
  }

  /** Unstaking from one validator leaves the others as they were. */
  lemma OthersUpToDate(
    s: Chain.State, s': Chain.State, t: Chain.Terms, index: nat, moved: nat, v: Client.ValidatorInfo)
    requires index < |s.validators| && Underway(s, s', t, index, moved)
    requires v.index != index && UpToDate(s, t, v)
    ensures UpToDate(s', t, v)
  {
    assert Chain.Shortfall(s', t) > 0 ==>
        s'.totalActive - Chain.Shortfall(s', t) == s.totalActive - Chain.Shortfall(s, t);
  }

  lemma OthersHold(s: Chain.State, s': Chain.State, done: Pubkey, account: Pubkey, infos: seq<StakeInfo>)
    requires Apart(infos) && account != done && RecordsHold(s, account, infos)
    requires OthersSame(s, s', Client.StakesOf(done, infos))
    ensures RecordsHold(s', account, infos)
  {
    Client.SmallestFirst(done, infos);
    forall info | info in infos && StakedTo(info, account)
      ensures Holds(s', info)
    {
      var i :| 0 <= i < |infos| && infos[i] == info;
      forall other | other in Client.StakesOf(done, infos)
        ensures other.index != info.index
      {
        var j :| 0 <= j < |infos| && infos[j] == other;
        assert i != j;
      }
    }
  }

  lemma RestUntouched(
    s: Chain.State, s': Chain.State, t: Chain.Terms, moved: nat,
    vs: seq<Client.ValidatorInfo>, infos: seq<StakeInfo>)
    requires vs != [] && Untouched(s, t, vs, infos) && Apart(infos)
    requires vs[0].index < |s.validators| && Underway(s, s', t, vs[0].index, moved)
    requires OthersSame(s, s', Client.StakesOf(vs[0].account, infos))
    ensures Untouched(s', t, vs[1..], infos)
  {
    forall v | v in vs[1..]
      ensures UpToDate(s', t, v) && RecordsHold(s', v.account, infos)
    {
      var i :| 0 <= i < |vs| - 1 && vs[1..][i] == v;
      assert vs[i + 1] == v;
      OthersUpToDate(s, s', t, vs[0].index, moved, v);
      OthersHold(s, s', vs[0].account, v.account, infos);
    }
  }

  /** What is counted is no more than what is unstaked, and no more than the shortfall; less than twice
      the minimum stake is unstaked beyond it. */
  ghost predicate Within(p: Progress, t: Chain.Terms, shortfall: nat) {
    && p.counted <= p.moved <= shortfall + SaturatingSub(2 * t.minStake, 1) && p.counted <= shortfall
    && Chain.Shortfall(p.state, t) == SaturatingSub(shortfall, p.moved)
  }

  lemma OneValidatorWithin(
    p: Progress, t: Chain.Terms, o: Outside, config: Client.Config, shortfall: nat,
    vs: seq<Client.ValidatorInfo>, infos: seq<StakeInfo>)
    requires Consistent(p) && Within(p, t, shortfall) && Undisturbed(o, t) && t.minStake > 0
    requires vs != [] && Untouched(p.state, t, vs, infos) && Apart(infos)
    requires Chain.StakeDelta(p.state, t) < 0 && vs[0].stakeDelta < 0 && vs[0].lastStakeDeltaEpoch != t.epoch
    ensures var target := Client.Target(vs[0], Chain.StakeDelta(p.state, t));
            var p' := UnstakeValidator(
                        p, t, o, config, vs[0], Client.StakesOf(vs[0].account, infos), target);
            Consistent(p') && Within(p', t, shortfall) && Untouched(p'.state, t, vs[1..], infos)
  {
    var v, stakes := vs[0], Client.StakesOf(vs[0].account, infos);
    var target := Client.Target(v, Chain.StakeDelta(p.state, t));
    var p' := UnstakeValidator(p, t, o, config, v, stakes, target);
    TargetIsWanted(p.state, t, v);
    StakesHold(p.state, v.account, infos);
    ValidatorExtends(p, t, o, config, v, stakes, target);
    ValidatorCovers(p.state, p, t, o, config, v, stakes, target, target, 0);
    ValidatorSparesOthers(p, t, o, config, v, stakes, target);
    RestUntouched(p.state, p'.state, t, p'.moved - p.moved, vs, infos);
  }

  lemma {:induction false} RunWithin(
    p: Progress, t: Chain.Terms, o: Outside, config: Client.Config, shortfall: nat,
    vs: seq<Client.ValidatorInfo>, infos: seq<StakeInfo>)
    requires Consistent(p) && Within(p, t, shortfall) && Undisturbed(o, t) && t.minStake > 0
    requires Untouched(p.state, t, vs, infos) && Apart(infos) && config.epoch == t.epoch
    ensures Within(Unstake(p, t, o, config, shortfall, vs, infos), t, shortfall)
    decreases |vs|
  {
    var delta := Chain.StakeDelta(p.state, t);
    if vs != [] && p.counted < shortfall && vs[0].stakeDelta < 0 && delta < 0 {
      if vs[0].lastStakeDeltaEpoch == config.epoch {
        RunWithin(p, t, o, config, shortfall, vs[1..], infos);
      } else {
        OneValidatorWithin(p, t, o, config, shortfall, vs, infos);
        var stakes, target := Client.StakesOf(vs[0].account, infos), Client.Target(vs[0], delta);
        RunWithin(UnstakeValidator(p, t, o, config, vs[0], stakes, target), t, o, config, shortfall, vs[1..], infos);
      }
    }
  }

  // ---------- The crank as a whole ----------

  /** What the client computes for the validators: how far each is off its stake target. */
  function Snapshot(s: Chain.State, t: Chain.Terms): seq<Client.ValidatorInfo> {
    var target := SaturatingSub(s.totalActive, Chain.Shortfall(s, t));
    seq(|s.validators|, i requires 0 <= i < |s.validators| =>
      var v := s.validators[i];
      Client.ValidatorInfo(
        i, v.account, v.score, v.lastStakeDeltaEpoch, Chain.StakeTarget(v, target, t) - v.activeBalance))
  }

  /** The crank is called with a shortfall, and the pool has enough stake to make it up. */
  ghost predicate Callable(s: Chain.State, t: Chain.Terms, infos: seq<StakeInfo>, config: Client.Config) {
    && config.epoch == t.epoch && 0 < Chain.Shortfall(s, t) <= s.totalActive
    && (forall i, j :: 0 <= i < j < |s.validators| ==> s.validators[i].account != s.validators[j].account)
    && Apart(infos) && forall info :: info in infos ==> Holds(s, info)
  }

  function Crank(
    s: Chain.State, t: Chain.Terms, o: Outside, infos: seq<StakeInfo>, config: Client.Config): Progress
  {
    Unstake(Progress(s, 0, 0, [], []), t, o, config, Chain.Shortfall(s, t), Client.ByStakeDelta(Snapshot(s, t)), infos)
  }

  /** The course of events that the client sees. */
  function Seen(s: Chain.State, t: Chain.Terms, o: Outside, p: Progress): Client.Environment {
    Client.Environment(
      Chain.StakeDelta(s, t),
      (n: nat) => if n < |p.responses| then p.responses[n] else Client.Response(false, 0),
      (n: nat) => 0,
      o.late)
  }

  /** The crank with these answers of the chain is the crank in the environment that they make. */
  lemma CrankIsRun(s: Chain.State, t: Chain.Terms, o: Outside, infos: seq<StakeInfo>, config: Client.Config)
    requires Chain.Shortfall(s, t) > 0
    ensures var p := Crank(s, t, o, infos, config);
            p.log == Client.Run(Snapshot(s, t), infos, config, Seen(s, t, o, p))
  {
    var start, p := Progress(s, 0, 0, [], []), Crank(s, t, o, infos, config);
    RunIsCrank(start, t, o, config, Chain.Shortfall(s, t), Client.ByStakeDelta(Snapshot(s, t)), infos,
               Seen(s, t, o, p));
  }

  lemma SnapshotUntouched(s: Chain.State, t: Chain.Terms, infos: seq<StakeInfo>, config: Client.Config)
    requires Callable(s, t, infos, config)
    ensures Untouched(s, t, Client.ByStakeDelta(Snapshot(s, t)), infos)
  {
    var vs, sorted := Snapshot(s, t), Client.ByStakeDelta(Snapshot(s, t));
    SortByKeyProperties(vs, Client.ByDelta);
    forall i, j | 0 <= i < j < |sorted|
      ensures sorted[i].index != sorted[j].index && sorted[i].account != sorted[j].account
    {
      var a, b := TwoPlaces(vs, sorted, i, j);
      assert a < b || b < a;
    }
    SameElements(sorted, vs);
  }

  /** With nobody else at work the client counts no more than is unstaked, and no more than the
      shortfall, whatever transactions or reports are lost, and whenever it stops. */
  lemma CountsNoMoreThanIsMoved(
    s: Chain.State, t: Chain.Terms, o: Outside, infos: seq<StakeInfo>, config: Client.Config)
    requires Callable(s, t, infos, config) && Undisturbed(o, t) && t.minStake > 0
    ensures var p := Crank(s, t, o, infos, config);
            var log := Client.Run(Snapshot(s, t), infos, config, Seen(s, t, o, p));
            && Client.Total(log) <= p.moved <= Chain.Shortfall(s, t) + 2 * t.minStake - 1
            && Client.Total(log) <= Chain.Shortfall(s, t)
            && Chain.Shortfall(p.state, t) == SaturatingSub(Chain.Shortfall(s, t), p.moved)
  {
    var start, sorted := Progress(s, 0, 0, [], []), Client.ByStakeDelta(Snapshot(s, t));
    SnapshotUntouched(s, t, infos, config);
    RunWithin(start, t, o, config, Chain.Shortfall(s, t), sorted, infos);
    RunExtends(start, t, o, config, Chain.Shortfall(s, t), sorted, infos);
    CrankIsRun(s, t, o, infos, config);
  }

  /** A transaction may be lost, or land while the client is told that it failed. */
  datatype Fate = Lost | Unreported | Reported

  function Network(t: Chain.Terms, fate: nat -> Fate): (Chain.State, Chain.Call, nat) -> Answer {
    (s: Chain.State, c: Chain.Call, n: nat) =>
      var outcome := Chain.Outcome(s, t, c);
      if fate(n) == Lost || outcome.Err? then Answer(Chain.Effect(s, 0), false)
      else Answer(outcome.value, fate(n) == Reported)
  }

  /** Every such network is one with nobody else at work. */
  lemma NetworkIsUndisturbed(t: Chain.Terms, fate: nat -> Fate, split: nat -> Pubkey, late: nat -> bool)
    ensures Undisturbed(Outside(Network(t, fate), split, late), t)
  {
    var o := Outside(Network(t, fate), split, late);
    forall s, c, n
      ensures HonestAt(o, t, s, c, n)
    {
    }
  }

  // ---------- The minimum stake is needed ----------

  /** With this minimum stake the client never counts more than the shortfall. */
  ghost predicate StaysWithin(minStake: nat) {
    forall s: Chain.State, t: Chain.Terms, o: Outside, infos: seq<StakeInfo>, config: Client.Config ::
      t.minStake == minStake && Callable(s, t, infos, config) && Undisturbed(o, t) ==>
        CountedWithin(s, t, o, infos, config)
  }

  predicate CountedWithin(
    s: Chain.State, t: Chain.Terms, o: Outside, infos: seq<StakeInfo>, config: Client.Config)
  {
    var log := Client.Run(Snapshot(s, t), infos, config, Seen(s, t, o, Crank(s, t, o, infos, config)));
    Client.Total(log) <= Chain.Shortfall(s, t)
  }

  const ONE := Pubkey(1)
  const TWO := Pubkey(2)

  /** Two validators with two lamports each, the first one in two stakes. */
  const START := Chain.State(
    [Chain.Validator(ONE, 0, 2, 0), Chain.Validator(TWO, 0, 2, 0)],
    [StakeRecord(Pubkey(10), 1, 0), StakeRecord(Pubkey(11), 1, 0), StakeRecord(Pubkey(12), 2, 0)],
    map[Pubkey(10) := Chain.Delegated(ONE, 1, false), Pubkey(11) := Chain.Delegated(ONE, 1, false),
        Pubkey(12) := Chain.Delegated(TWO, 2, false)],
    4, 0, 0)

  /** Three lamports are missing, and the minimum stake is zero. */
  const NO_MINIMUM := Chain.Terms(1, 0, 0, true, -3, 0)

  function InfoAt(index: nat, voter: Pubkey): StakeInfo
    requires index < 3
  {
    var record := START.stakes[index];
    var amount := record.lastUpdateDelegated;
    StakeInfo(index, record, Some(Delegation(voter, amount, false, 0, amount, 0, 0)), amount)
  }

  /** All transactions land, and are reported. */
  function AllLand(t: Chain.Terms): Outside {
    Outside(Network(t, (n: nat) => Reported), (n: nat) => Pubkey(100 + n), (n: nat) => false)
  }

  lemma FirstSplit()
    ensures var outcome := Chain.Outcome(START, NO_MINIMUM, Chain.Call(0, Pubkey(10), 0, Pubkey(100)));
            && outcome.Ok? && outcome.value.moved == 1 && AfterFirst(outcome.value.state)
  {
    var c := Chain.Call(0, Pubkey(10), 0, Pubkey(100));
    assert Chain.Wanted(START, NO_MINIMUM, START.validators[0]) == 2;
    assert Chain.Outcome(START, NO_MINIMUM, c) == Chain.Split(START, NO_MINIMUM, c, 1);
  }

  /** One lamport of the first validator cools down, and it has had its split. */
  ghost predicate AfterFirst(s: Chain.State) {
    && s.validators == [Chain.Validator(ONE, 0, 1, 1), Chain.Validator(TWO, 0, 2, 0)]
    && |s.stakes| > 2 && s.stakes[1] == START.stakes[1] && s.stakes[2] == START.stakes[2]
    && Pubkey(11) in s.accounts && s.accounts[Pubkey(11)] == START.accounts[Pubkey(11)]
    && Pubkey(12) in s.accounts && s.accounts[Pubkey(12)] == START.accounts[Pubkey(12)]
    && Pubkey(102) !in s.accounts
    && s.totalActive == 3 && s.coolingDown == 1
  }

  lemma SecondHasNoEffect(s: Chain.State)
    requires AfterFirst(s)
    ensures Chain.Outcome(s, NO_MINIMUM, Chain.Call(1, Pubkey(11), 0, Pubkey(101))) == Ok(Chain.Effect(s, 0))
  {
    assert Chain.Wanted(s, NO_MINIMUM, s.validators[0]) == 1;
  }

  lemma ThirdSplit(s: Chain.State)
    requires AfterFirst(s)
    ensures Chain.Outcome(s, NO_MINIMUM, Chain.Call(2, Pubkey(12), 1, Pubkey(102))).Ok?
  {
    assert Chain.Wanted(s, NO_MINIMUM, s.validators[1]) == 2;
  }

  lemma TheirStakes()
    ensures var infos := [InfoAt(0, ONE), InfoAt(1, ONE), InfoAt(2, TWO)];
            && Client.StakesOf(ONE, infos) == [InfoAt(0, ONE), InfoAt(1, ONE)]
            && Client.StakesOf(TWO, infos) == [InfoAt(2, TWO)]
  {
    var a, b, c := InfoAt(0, ONE), InfoAt(1, ONE), InfoAt(2, TWO);
    assert [a, b, c][1..] == [b, c] && [b, c][1..] == [c] && [c][1..] == [];
    assert Client.Filter(ONE, [c]) == [] && Client.Filter(TWO, [c]) == [c];
    assert Client.Filter(ONE, [b, c]) == [b] && Client.Filter(TWO, [b, c]) == [c];
    assert Client.Filter(ONE, [a, b, c]) == [a, b] && Client.Filter(TWO, [a, b, c]) == [c];
    SortOfSorted([a, b], Client.ByStake);
    SortOfSorted([c], Client.ByStake);
  }

  lemma OneStake(
    p: Progress, t: Chain.Terms, o: Outside, config: Client.Config, v: Client.ValidatorInfo, a: StakeInfo, left: nat)
    requires config.limit == 0 && left > 0
    ensures UnstakeValidator(p, t, o, config, v, [a], left) == Attempt(p, t, o, v, a, left)
  {
    assert [a][1..] == [];
  }

  lemma TwoStakes(
    p: Progress, t: Chain.Terms, o: Outside, config: Client.Config, v: Client.ValidatorInfo,
    a: StakeInfo, b: StakeInfo, left: nat)
    requires config.limit == 0 && Attempt(p, t, o, v, a, left).counted < p.counted + left
    ensures var p' := Attempt(p, t, o, v, a, left);
            UnstakeValidator(p, t, o, config, v, [a, b], left)
            == Attempt(p', t, o, v, b, left - (p'.counted - p.counted))
  {
    var p' := Attempt(p, t, o, v, a, left);
    assert [a, b][1..] == [b];
    OneStake(p', t, o, config, v, b, left - (p'.counted - p.counted));
  }

  /** The crank on the two stakes of the first validator. */
  lemma TwoCounted() returns (p: Progress)
    ensures p == UnstakeValidator(
                   Progress(START, 0, 0, [], []), NO_MINIMUM, AllLand(NO_MINIMUM), Client.Config(1, 0, 0),
                   Client.ValidatorInfo(0, ONE, 0, 0, -2), [InfoAt(0, ONE), InfoAt(1, ONE)], 2)
    ensures p.counted == 2 && |p.log| == 2 && AfterFirst(p.state)
  {
    var t, o, config := NO_MINIMUM, AllLand(NO_MINIMUM), Client.Config(1, 0, 0);
    var v, p0 := Client.ValidatorInfo(0, ONE, 0, 0, -2), Progress(START, 0, 0, [], []);
    FirstSplit();
    var p1 := Attempt(p0, t, o, v, InfoAt(0, ONE), 2);
    assert p1.counted == 1 && |p1.log| == 1 && AfterFirst(p1.state);
    SecondHasNoEffect(p1.state);
    p := Attempt(p1, t, o, v, InfoAt(1, ONE), 1);
    TwoStakes(p0, t, o, config, v, InfoAt(0, ONE), InfoAt(1, ONE), 2);
  }

  /** The first split marks the validator although more is wanted of it; its second stake is then left
      alone, but counted. */
  lemma FourAreCounted()
    ensures var infos := [InfoAt(0, ONE), InfoAt(1, ONE), InfoAt(2, TWO)];
            Crank(START, NO_MINIMUM, AllLand(NO_MINIMUM), infos, Client.Config(1, 0, 0)).counted == 4
  {
    var t, o, config := NO_MINIMUM, AllLand(NO_MINIMUM), Client.Config(1, 0, 0);
    var infos := [InfoAt(0, ONE), InfoAt(1, ONE), InfoAt(2, TWO)];
    var v, w := Client.ValidatorInfo(0, ONE, 0, 0, -2), Client.ValidatorInfo(1, TWO, 0, 0, -2);
    var p0 := Progress(START, 0, 0, [], []);
    var p2 := TwoCounted();
    ThirdSplit(p2.state);
    var p3 := Attempt(p2, t, o, w, InfoAt(2, TWO), 2);
    OneStake(p2, t, o, config, w, InfoAt(2, TWO), 2);
    TheirStakes();
    assert Snapshot(START, t) == [v, w];
    SortOfSorted([v, w], Client.ByDelta);
    assert [v, w][1..] == [w] && [w][1..] == [];
    assert Unstake(p2, t, o, config, 3, [w], infos) == p3;
    assert Unstake(p0, t, o, config, 3, [v, w], infos) == p3;
  }

  /** The client counts no more than the shortfall exactly for a minimum stake that is not zero. */
  lemma StaysWithinIff(minStake: nat)
    ensures StaysWithin(minStake) <==> minStake > 0
  {
    if minStake > 0 {
      forall s: Chain.State, t: Chain.Terms, o: Outside, infos: seq<StakeInfo>, config: Client.Config
        | t.minStake == minStake && Callable(s, t, infos, config) && Undisturbed(o, t)
        ensures CountedWithin(s, t, o, infos, config)
      {
        CountsNoMoreThanIsMoved(s, t, o, infos, config);
      }
    } else {
      var t, o, config := NO_MINIMUM, AllLand(NO_MINIMUM), Client.Config(1, 0, 0);
      var infos := [InfoAt(0, ONE), InfoAt(1, ONE), InfoAt(2, TWO)];
      NetworkIsUndisturbed(t, (n: nat) => Reported, (n: nat) => Pubkey(100 + n), (n: nat) => false);
      FourAreCounted();
      CrankIsRun(START, t, o, infos, config);
      RunExtends(Progress(START, 0, 0, [], []), t, o, config, 3, Client.ByStakeDelta(Snapshot(START, t)), infos);
      assert Callable(START, t, infos, config) && Undisturbed(o, t);
      assert !CountedWithin(START, t, o, infos, config);
    }
  }
}
