/** The deactivation of a stake on chain (deactivate_stake.rs): what is asked for is split off, or the
    whole stake is deactivated if too little of it would be left. */
module DeactivateStake {
  import opened Arithmetic
  import opened Collections
  import opened StakeTypes
  import opened StakesInfo

  datatype Validator = Validator(account: Pubkey, score: nat, activeBalance: nat, lastStakeDeltaEpoch: nat)

  /** A stake account as the stake program sees it. */
  datatype Delegated = Delegated(voter: Pubkey, stake: nat, deactivating: bool)

  /** What does not change meanwhile: `funds` is what the reserve holds, less its rent and less the
      circulating tickets. */
  datatype Terms = Terms(
    epoch: nat, minStake: nat, totalScore: nat, inWindow: bool, funds: int, emergencyCoolingDown: nat)

  datatype State = State(
    validators: seq<Validator>, stakes: seq<StakeRecord>, accounts: map<Pubkey, Delegated>,
    totalActive: nat, coolingDown: nat, lastStakeDeltaEpoch: nat)

  datatype Call = Call(stakeIndex: nat, stakeAccount: Pubkey, validatorIndex: nat, splitAccount: Pubkey)

  datatype Error =
    | BadIndex
    | LayoutChanged
    | TooEarly
    | NothingToUnstake
    | NotDelegated
    | WrongValidator
    | AlreadyDeactivated
    | SplitInUse
    | InsufficientStake
    | AssertionFailed

  datatype Effect = Effect(state: State, moved: nat)

  /** Without the emergency unstakes; if that is negative they count, but do not make it positive. */
  function StakeDelta(s: State, t: Terms): int {
    var raw := t.funds + s.coolingDown;
    if raw >= 0 then raw else Min(raw + t.emergencyCoolingDown, 0)
  }

  function Shortfall(s: State, t: Terms): nat {
    if StakeDelta(s, t) < 0 then -StakeDelta(s, t) else 0
  }

  function StakeTarget(v: Validator, total: nat, t: Terms): nat {
    if t.totalScore == 0 then 0 else MulDiv(total, v.score, t.totalScore)
  }

  /** What a validator has beyond its target, but no more than the shortfall. */
  function Wanted(s: State, t: Terms, v: Validator): nat {
    var target := StakeTarget(v, SaturatingSub(s.totalActive, Shortfall(s, t)), t);
    Min(SaturatingSub(v.activeBalance, target), Shortfall(s, t))
  }

  /** The balances after `amount` has started to cool down. */
  function Moved(s: State, t: Terms, validatorIndex: nat, amount: nat): State
    requires validatorIndex < |s.validators|
  {
    var v := s.validators[validatorIndex];
    s.(validators := s.validators[validatorIndex := v.(activeBalance := SaturatingSub(v.activeBalance, amount))],
       totalActive := SaturatingSub(s.totalActive, amount),
       coolingDown := s.coolingDown + amount,
       lastStakeDeltaEpoch := t.epoch)
  }

  /** The whole stake is deactivated. */
  function Whole(s: State, t: Terms, c: Call): Result<Effect, Error>
    requires c.stakeIndex < |s.stakes| && c.validatorIndex < |s.validators| && c.stakeAccount in s.accounts
  {
    var d, amount := s.accounts[c.stakeAccount], s.stakes[c.stakeIndex].lastUpdateDelegated;
    if d.deactivating then Err(AlreadyDeactivated)
    else
      var s' := s.(accounts := s.accounts[c.stakeAccount := d.(deactivating := true)]);
      Ok(Effect(Moved(s', t, c.validatorIndex, amount), amount))
  }

  /** `amount` is split off and deactivated, once per validator and epoch. */
  function Split(s: State, t: Terms, c: Call, amount: nat): Result<Effect, Error>
    requires c.stakeIndex < |s.stakes| && c.validatorIndex < |s.validators| && c.stakeAccount in s.accounts
  {
    var d, v, record := s.accounts[c.stakeAccount], s.validators[c.validatorIndex], s.stakes[c.stakeIndex];
    if v.lastStakeDeltaEpoch == t.epoch then Ok(Effect(s, 0))
    else if amount == 0 || amount > record.lastUpdateDelegated then Err(AssertionFailed)
    else if c.splitAccount in s.accounts then Err(SplitInUse)
    else if amount > d.stake then Err(InsufficientStake)
    else if d.deactivating then Err(AlreadyDeactivated)
    else
      var s' := s.(
        validators := s.validators[c.validatorIndex := v.(lastStakeDeltaEpoch := t.epoch)],
        stakes := s.stakes[c.stakeIndex := record.(lastUpdateDelegated := record.lastUpdateDelegated - amount)]
                  + [StakeRecord(c.splitAccount, amount, t.epoch)],
        accounts := s.accounts[c.stakeAccount := d.(stake := d.stake - amount)]
                              [c.splitAccount := Delegated(d.voter, amount, true)]);
      Ok(Effect(Moved(s', t, c.validatorIndex, amount), amount))
  }

  /** The first check that fails, if any. */
  function Checked(s: State, t: Terms, c: Call): (error: Option<Error>)
    ensures error == None ==>
              && c.stakeIndex < |s.stakes| && c.validatorIndex < |s.validators| && c.stakeAccount in s.accounts
              && s.stakes[c.stakeIndex].stakeAccount == c.stakeAccount
              && s.accounts[c.stakeAccount].voter == s.validators[c.validatorIndex].account
              && Shortfall(s, t) > 0
  {
    if c.stakeIndex >= |s.stakes| then Some(BadIndex)
    else if c.stakeAccount != s.stakes[c.stakeIndex].stakeAccount then Some(LayoutChanged)
    else if c.validatorIndex >= |s.validators| then Some(BadIndex)
    else if !t.inWindow then Some(TooEarly)
    else if StakeDelta(s, t) >= 0 then Some(NothingToUnstake)
    else if c.stakeAccount !in s.accounts then Some(NotDelegated)
    else if s.accounts[c.stakeAccount].voter != s.validators[c.validatorIndex].account then Some(WrongValidator)
    else None
  }

  /** If too little of the stake would be left, all of it goes. */
  function Move(s: State, t: Terms, c: Call, wanted: nat): Result<Effect, Error>
    requires c.stakeIndex < |s.stakes| && c.validatorIndex < |s.validators| && c.stakeAccount in s.accounts
  {
    var delegated := s.stakes[c.stakeIndex].lastUpdateDelegated;
    var rest := SaturatingSub(delegated, wanted);
    if wanted == 0 then Ok(Effect(s, 0))
    else if rest < 2 * t.minStake then Whole(s, t, c)
    else Split(s, t, c, delegated - rest)
  }

  function Outcome(s: State, t: Terms, c: Call): Result<Effect, Error> {
    var error := Checked(s, t, c);
    if error.Some? then Err(error.value)
    else Move(s, t, c, Wanted(s, t, s.validators[c.validatorIndex]))
  }

  class Marinade {
    var validators: seq<Validator>
    var stakes: seq<StakeRecord>
    var accounts: map<Pubkey, Delegated>
    var totalActive: nat
    var coolingDown: nat
    var lastStakeDeltaEpoch: nat

    constructor (s: State)
      ensures Current() == s
    {
      validators, stakes, accounts := s.validators, s.stakes, s.accounts;
      totalActive, coolingDown, lastStakeDeltaEpoch := s.totalActive, s.coolingDown, s.lastStakeDeltaEpoch;
    }

    function Current(): State
      reads this
    {
      State(validators, stakes, accounts, totalActive, coolingDown, lastStakeDeltaEpoch)
    }

    /** Runs with the `amount` in the program's own order: the record and the accounts first, then the
        balances. On an error the transaction is undone. */
    method Process(t: Terms, c: Call) returns (r: Result<nat, Error>)
      modifies this
      ensures match Outcome(old(Current()), t, c)
              case Ok(effect) => Current() == effect.state && r == Ok(effect.moved)
              case Err(error) => Current() == old(Current()) && r == Err(error)
    {
      var error := Checked(Current(), t, c);
      if error.Some? {
        return Err(error.value);
      }
      var stake, validator := stakes[c.stakeIndex], validators[c.validatorIndex];
      var account := accounts[c.stakeAccount];
      var unstakeDelta := Shortfall(Current(), t);
      var target := StakeTarget(validator, SaturatingSub(totalActive, unstakeDelta), t);
      if validator.activeBalance <= target {
        return Ok(0);
      }
      var unstakeFromValidator := validator.activeBalance - target;
      var stakeAccountTarget := SaturatingSub(stake.lastUpdateDelegated, Min(unstakeFromValidator, unstakeDelta));
      var unstaked;
      if stakeAccountTarget < 2 * t.minStake {
        if account.deactivating {
          return Err(AlreadyDeactivated);
        }
        accounts := accounts[c.stakeAccount := account.(deactivating := true)];
        unstaked := stake.lastUpdateDelegated;
      } else {
        if validator.lastStakeDeltaEpoch == t.epoch {
          return Ok(0);
        }
        unstaked := stake.lastUpdateDelegated - stakeAccountTarget;
        if unstaked == 0 {
          return Err(AssertionFailed);
        }
        if c.splitAccount in accounts {
          return Err(SplitInUse);
        }
        if unstaked > account.stake {
          return Err(InsufficientStake);
        }
        if account.deactivating {
          return Err(AlreadyDeactivated);
        }
        validator := validator.(lastStakeDeltaEpoch := t.epoch);
        stakes := stakes + [StakeRecord(c.splitAccount, unstaked, t.epoch)];
        accounts := accounts[c.stakeAccount := account.(stake := account.stake - unstaked)];
        accounts := accounts[c.splitAccount := Delegated(account.voter, unstaked, true)];
        stake := stake.(lastUpdateDelegated := stake.lastUpdateDelegated - unstaked);
      }
      validator := validator.(activeBalance := SaturatingSub(validator.activeBalance, unstaked));
      lastStakeDeltaEpoch := t.epoch;
      totalActive := SaturatingSub(totalActive, unstaked);
      coolingDown := coolingDown + unstaked;
      stakes := stakes[c.stakeIndex := stake];
      validators := validators[c.validatorIndex := validator];
      r := Ok(unstaked);
    }
  }

  // ---------- Targets ----------

  /** What cools down counts for the reserve; emergency unstakes only make up for a shortfall. */
  lemma DeltaCountsEmergency(s: State, t: Terms)
    ensures var raw := t.funds + s.coolingDown;
            && (raw >= 0 ==> StakeDelta(s, t) == raw)
            && (raw < 0 ==> StakeDelta(s, t) == if raw + t.emergencyCoolingDown < 0 then raw + t.emergencyCoolingDown
                            else 0)
            && Shortfall(s, t) == if raw + t.emergencyCoolingDown < 0 then -(raw + t.emergencyCoolingDown) else 0
  {
  }

  function ScoreOf(v: Validator): nat {
    v.score
  }

  function TargetOf(total: nat, t: Terms): Validator -> nat {
    (v: Validator) => StakeTarget(v, total, t)
  }

  /** A validator's target is its part of the total by score, rounded down. */
  lemma TargetIsPart(v: Validator, total: nat, t: Terms)
    requires t.totalScore > 0
    ensures var target := StakeTarget(v, total, t);
            target * t.totalScore <= v.score * total < (target + 1) * t.totalScore
  {
    var product := total * v.score;
    DivideAndMultiply(product, t.totalScore);
    var q := product / t.totalScore;
    assert t.totalScore * q == q * t.totalScore && (q + 1) * t.totalScore == q * t.totalScore + t.totalScore;
    assert total * v.score == v.score * total;
  }

  /** The targets of all validators together are the total, but for less than a lamport for each of them. */
  lemma TargetsShareTheTotal(validators: seq<Validator>, total: nat, t: Terms)
    requires t.totalScore == SumBy(validators, ScoreOf) > 0
    ensures SumBy(validators, TargetOf(total, t)) <= total < SumBy(validators, TargetOf(total, t)) + |validators|
  {
    forall v | v in validators
      ensures var target := TargetOf(total, t)(v);
              target * t.totalScore <= ScoreOf(v) * total < (target + 1) * t.totalScore
    {
      TargetIsPart(v, total, t);
    }
    SumOfParts(validators, ScoreOf, TargetOf(total, t), total, t.totalScore);
    var targets := SumBy(validators, TargetOf(total, t));
    assert (total + 1) * t.totalScore == t.totalScore * total + t.totalScore;
    if targets > total {
      MulMonotone(total + 1, targets, t.totalScore);
    }
    if targets + |validators| <= total {
      MulMonotone(targets + |validators|, total, t.totalScore);
    }
  }

  // ---------- One deactivation ----------

  /** A deactivation succeeds exactly in the window before the end of the epoch, with a shortfall, for a stake
      of the validator named, at the right places of the lists; and, if there is anything to move, with a stake
      that is not deactivating, or for a validator that has been split in this epoch, or with enough stake and
      an unused account for the split. */
  lemma SucceedsIff(s: State, t: Terms, c: Call)
    ensures Outcome(s, t, c).Ok? <==>
              && c.stakeIndex < |s.stakes| && s.stakes[c.stakeIndex].stakeAccount == c.stakeAccount
              && c.validatorIndex < |s.validators| && t.inWindow && StakeDelta(s, t) < 0
              && c.stakeAccount in s.accounts
              && var d, v := s.accounts[c.stakeAccount], s.validators[c.validatorIndex];
                 var delegated, wanted := s.stakes[c.stakeIndex].lastUpdateDelegated, Wanted(s, t, v);
                 && d.voter == v.account
                 && (wanted > 0 ==>
                       if SaturatingSub(delegated, wanted) < 2 * t.minStake then !d.deactivating
                       else
                         || v.lastStakeDeltaEpoch == t.epoch
                         || (delegated > 0 && c.splitAccount !in s.accounts && !d.deactivating
                             && Min(delegated, wanted) <= d.stake))
  {
  }

  /** What a deactivation with an effect changes: the whole stake is deactivated if it would be left with less
      than twice the minimum; otherwise what is wanted goes to a new account and a new record, and the
      validator is marked for the epoch. Both totals and the validator's balance follow. */
  lemma WhatChanges(s: State, t: Terms, c: Call)
    requires Outcome(s, t, c).Ok? && Outcome(s, t, c).value.moved > 0
    ensures var Effect(s', moved) := Outcome(s, t, c).value;
            var record, d, v := s.stakes[c.stakeIndex], s.accounts[c.stakeAccount], s.validators[c.validatorIndex];
            var rest := SaturatingSub(record.lastUpdateDelegated, Wanted(s, t, v));
            && s'.lastStakeDeltaEpoch == t.epoch && s'.coolingDown == s.coolingDown + moved
            && s'.totalActive == SaturatingSub(s.totalActive, moved)
            && |s'.validators| == |s.validators|
            && s'.validators[c.validatorIndex].activeBalance == SaturatingSub(v.activeBalance, moved)
            && if rest < 2 * t.minStake then
                 && moved == record.lastUpdateDelegated && s'.stakes == s.stakes
                 && s'.accounts == s.accounts[c.stakeAccount := d.(deactivating := true)]
                 && s'.validators[c.validatorIndex].lastStakeDeltaEpoch == v.lastStakeDeltaEpoch
               else
                 && moved == record.lastUpdateDelegated - rest
                 && s'.stakes == s.stakes[c.stakeIndex := record.(lastUpdateDelegated := rest)]
                                 + [StakeRecord(c.splitAccount, moved, t.epoch)]
                 && s'.accounts == s.accounts[c.stakeAccount := d.(stake := d.stake - moved)]
                                             [c.splitAccount := Delegated(d.voter, moved, true)]
                 && s'.validators[c.validatorIndex].lastStakeDeltaEpoch == t.epoch
  {
  }

  /** A deactivation without effect is one that asks for nothing, or the second split of the epoch. */
  lemma NoEffectIff(s: State, t: Terms, c: Call)
    requires Outcome(s, t, c).Ok? && s.stakes[c.stakeIndex].lastUpdateDelegated > 0
    ensures var v := s.validators[c.validatorIndex];
            && (Outcome(s, t, c).value.moved == 0 <==> Outcome(s, t, c).value.state == s)
            && (Outcome(s, t, c).value.moved == 0 <==>
                || Wanted(s, t, v) == 0
                || (v.lastStakeDeltaEpoch == t.epoch
                    && SaturatingSub(s.stakes[c.stakeIndex].lastUpdateDelegated, Wanted(s, t, v)) >= 2 * t.minStake))
  {
  }

  /** What has an effect moves what is wanted, as far as the stake goes, and less than twice the minimum
      more; the client's estimate for the same amount is never too high. */
  lemma EstimateIsLow(s: State, t: Terms, c: Call)
    requires Outcome(s, t, c).Ok? && Outcome(s, t, c).value.moved > 0
    ensures var moved := Outcome(s, t, c).value.moved;
            var estimate := Min(s.stakes[c.stakeIndex].lastUpdateDelegated,
              Wanted(s, t, s.validators[c.validatorIndex]));
            estimate <= moved <= estimate + SaturatingSub(2 * t.minStake, 1)
  {
  }

  /** A call that deactivates a whole stake beyond the shortfall: the stake holds more than the
      shortfall, and too little of it would be left. All of that is known before the call. */
  predicate Overshoots(s: State, t: Terms, c: Call) {
    Checked(s, t, c) == None && !s.accounts[c.stakeAccount].deactivating &&
    var delegated := s.stakes[c.stakeIndex].lastUpdateDelegated;
    var wanted := Wanted(s, t, s.validators[c.validatorIndex]);
    wanted > 0 && delegated > Shortfall(s, t) && SaturatingSub(delegated, wanted) < 2 * t.minStake
  }

  lemma ExceedsShortfallIff(s: State, t: Terms, c: Call)
    ensures Outcome(s, t, c).Ok? && Outcome(s, t, c).value.moved > Shortfall(s, t) <==> Overshoots(s, t, c)
  {
  }

  /** More is moved than the client estimates for the same amount exactly if the stake holds more than is
      wanted, but less than twice the minimum more. */
  lemma ExceedsEstimateIff(s: State, t: Terms, c: Call)
    requires Outcome(s, t, c).Ok?
    ensures var delegated := s.stakes[c.stakeIndex].lastUpdateDelegated;
            var wanted := Wanted(s, t, s.validators[c.validatorIndex]);
            Outcome(s, t, c).value.moved > Min(delegated, wanted)
            <==> 0 < wanted < delegated < wanted + 2 * t.minStake
  {
  }

  lemma MovesTheDelta(s: State, t: Terms, c: Call)
    requires Outcome(s, t, c).Ok?
    ensures var effect := Outcome(s, t, c).value;
            && Shortfall(effect.state, t) == SaturatingSub(Shortfall(s, t), effect.moved)
            && effect.moved <= Shortfall(s, t) + SaturatingSub(2 * t.minStake, 1)
  {
  }

  // ---------- Any run of deactivations ----------

  function AfterAll(s: State, t: Terms, calls: seq<Call>): Effect
    decreases |calls|
  {
    if calls == [] then Effect(s, 0)
    else
      var first := match Outcome(s, t, calls[0]) case Ok(effect) => effect case Err(_) => Effect(s, 0);
      var rest := AfterAll(first.state, t, calls[1..]);
      Effect(rest.state, first.moved + rest.moved)
  }

  lemma {:induction false} NothingWithoutShortfall(s: State, t: Terms, calls: seq<Call>)
    requires Shortfall(s, t) == 0
    ensures AfterAll(s, t, calls) == Effect(s, 0)
    decreases |calls|
  {
    if calls != [] {
      NothingWithoutShortfall(s, t, calls[1..]);
    }
  }

  /** Whatever stakes are deactivated in whatever order, the shortfall falls by what is moved, and in all
      less than twice the minimum stake is moved beyond the shortfall of the beginning. */
  lemma {:induction false} MovesLittleBeyondShortfall(s: State, t: Terms, calls: seq<Call>)
    ensures var effect := AfterAll(s, t, calls);
            && Shortfall(effect.state, t) == SaturatingSub(Shortfall(s, t), effect.moved)
            && effect.moved <= Shortfall(s, t) + SaturatingSub(2 * t.minStake, 1)
    decreases |calls|
  {
    if calls != [] && Outcome(s, t, calls[0]).Ok? {
      var first := Outcome(s, t, calls[0]).value;
      MovesTheDelta(s, t, calls[0]);
      if Shortfall(first.state, t) == 0 {
        NothingWithoutShortfall(first.state, t, calls[1..]);
      }
    }
    if calls != [] {
      var next := match Outcome(s, t, calls[0]) case Ok(effect) => effect.state case Err(_) => s;
      MovesLittleBeyondShortfall(next, t, calls[1..]);
    }
  }

  /** The `k`-th call of a run overshoots in the state that it finds. */
  predicate OvershootsAt(s: State, t: Terms, calls: seq<Call>, k: nat)
    requires k < |calls|
  {
    Overshoots(AfterAll(s, t, calls[..k]).state, t, calls[k])
  }

  lemma FirstOrLater(s: State, t: Terms, calls: seq<Call>)
    requires calls != []
    ensures var next := match Outcome(s, t, calls[0]) case Ok(effect) => effect.state case Err(_) => s;
            (exists k :: 0 <= k < |calls| && OvershootsAt(s, t, calls, k)) <==>
              || Overshoots(s, t, calls[0])
              || exists k :: 0 <= k < |calls[1..]| && OvershootsAt(next, t, calls[1..], k)
  {
    var next := match Outcome(s, t, calls[0]) case Ok(effect) => effect.state case Err(_) => s;
    var rest := calls[1..];
    assert OvershootsAt(s, t, calls, 0) <==> Overshoots(s, t, calls[0]);
    forall k: nat | k < |rest|
      ensures OvershootsAt(next, t, rest, k) <==> OvershootsAt(s, t, calls, k + 1)
    {
      assert calls[..k + 1][1..] == rest[..k];
    }
    if k :| 0 <= k < |calls| && OvershootsAt(s, t, calls, k) {
      assert k > 0 ==> k == k - 1 + 1 && (OvershootsAt(next, t, rest, k - 1) <==> OvershootsAt(s, t, calls, k));
    }
  }

  /** A run moves more than the shortfall of its beginning exactly if one of its calls overshoots. */
  lemma {:induction false} RunExceedsShortfallIff(s: State, t: Terms, calls: seq<Call>)
    ensures AfterAll(s, t, calls).moved > Shortfall(s, t) <==>
              exists k :: 0 <= k < |calls| && OvershootsAt(s, t, calls, k)
    decreases |calls|
  {
    if calls != [] {
      FirstOrLater(s, t, calls);
      ExceedsShortfallIff(s, t, calls[0]);
      if Outcome(s, t, calls[0]).Ok? {
        MovesTheDelta(s, t, calls[0]);
        RunExceedsShortfallIff(Outcome(s, t, calls[0]).value.state, t, calls[1..]);
        if Outcome(s, t, calls[0]).value.moved >= Shortfall(s, t) {
          NothingWithoutShortfall(Outcome(s, t, calls[0]).value.state, t, calls[1..]);
        }
      } else {
        RunExceedsShortfallIff(s, t, calls[1..]);
      }
    }
  }

  // ---------- Balances in step ----------

  /** What the records say that a validator's stake accounts hold, leaving out those that cool down. */
  function ActiveOf(account: Pubkey, accounts: map<Pubkey, Delegated>): StakeRecord -> nat {
    (r: StakeRecord) =>
      if r.stakeAccount in accounts && accounts[r.stakeAccount].voter == account
         && !accounts[r.stakeAccount].deactivating
      then r.lastUpdateDelegated else 0
  }

  function Balance(v: Validator): nat {
    v.activeBalance
  }

  /** Every record names a stake account of its own, every validator's balance is what is recorded for
      its active stakes, and the total is the sum of the balances. */
  ghost predicate InStep(s: State) {
    && s.totalActive == SumBy(s.validators, Balance)
    && OwnAccounts(s.stakes, s.accounts)
    && (forall i, j :: 0 <= i < j < |s.validators| ==> s.validators[i].account != s.validators[j].account)
    && forall i :: 0 <= i < |s.validators| ==> BalanceInStep(s.validators[i], s.stakes, s.accounts)
  }

  ghost predicate OwnAccounts(stakes: seq<StakeRecord>, accounts: map<Pubkey, Delegated>) {
    && (forall i :: 0 <= i < |stakes| ==> stakes[i].stakeAccount in accounts)
    && (forall i, j :: 0 <= i < j < |stakes| ==> stakes[i].stakeAccount != stakes[j].stakeAccount)
  }

  predicate BalanceInStep(v: Validator, stakes: seq<StakeRecord>, accounts: map<Pubkey, Delegated>) {
    v.activeBalance == SumBy(stakes, ActiveOf(v.account, accounts))
  }

  lemma SumOfOthers<T>(s: seq<T>, i: nat, changed: T, f: T -> nat, g: T -> nat)
    requires i < |s|
    requires forall j :: 0 <= j < |s| && j != i ==> f(s[j]) == g(s[j])
    ensures SumBy(s[i := changed], g) + f(s[i]) == SumBy(s, f) + g(changed)
  {
    var others := RemoveAt(s, i);
    SumByRemoveAt(s, i, f);
    SumByRemoveAt(s[i := changed], i, g);
    assert RemoveAt(s[i := changed], i) == others;
    forall x | x in others
      ensures f(x) == g(x)
    {
      var j :| 0 <= j < |others| && others[j] == x;
      assert x == s[if j < i then j else j + 1];
    }
    SumByBound(others, f, g);
    SumByBound(others, g, f);
  }

  /** One validator's balance, when `amount` of its `i`-th stake cools down: all of it, or a part that is
      split off. */
  lemma BalanceFollows(
    v: Validator, s: State, i: nat, amount: nat, changed: StakeRecord, accounts: map<Pubkey, Delegated>)
    requires InStep(s) && BalanceInStep(v, s.stakes, s.accounts) && i < |s.stakes|
    requires forall j :: 0 <= j < |s.stakes| && j != i ==>
               && s.stakes[j].stakeAccount in accounts
               && accounts[s.stakes[j].stakeAccount] == s.accounts[s.stakes[j].stakeAccount]
    requires var f, g := ActiveOf(v.account, s.accounts), ActiveOf(v.account, accounts);
             f(s.stakes[i]) == g(changed)
               + (if s.accounts[s.stakes[i].stakeAccount].voter == v.account then amount else 0)
    ensures var own := s.accounts[s.stakes[i].stakeAccount].voter == v.account;
            && (own ==> v.activeBalance >= amount)
            && BalanceInStep(
                 v.(activeBalance := if own then SaturatingSub(v.activeBalance, amount) else v.activeBalance),
                 s.stakes[i := changed], accounts)
  {
    SumOfOthers(s.stakes, i, changed, ActiveOf(v.account, s.accounts), ActiveOf(v.account, accounts));
  }

  lemma TotalFollows(validators: seq<Validator>, i: nat, changed: Validator, amount: nat)
    requires i < |validators| && changed.activeBalance + amount == validators[i].activeBalance
    ensures SumBy(validators[i := changed], Balance) + amount == SumBy(validators, Balance)
  {
    SumOfOthers(validators, i, changed, Balance, Balance);
  }

  ghost predicate KeepsInStep(s: State, outcome: Result<Effect, Error>) {
    outcome.Ok? ==>
      InStep(outcome.value.state) && outcome.value.state.totalActive + outcome.value.moved == s.totalActive
  }

  lemma WholeKeepsInStep(s: State, t: Terms, c: Call)
    requires InStep(s) && Checked(s, t, c) == None
    ensures KeepsInStep(s, Whole(s, t, c))
  {
    if Whole(s, t, c).Ok? {
      var i, amount, s' := c.stakeIndex, s.stakes[c.stakeIndex].lastUpdateDelegated, Whole(s, t, c).value.state;
      assert s.stakes[i := s.stakes[i]] == s.stakes;
      forall k | 0 <= k < |s.validators|
        ensures BalanceInStep(s'.validators[k], s'.stakes, s'.accounts)
        ensures k == c.validatorIndex ==> s.validators[k].activeBalance >= amount
      {
        BalanceFollows(s.validators[k], s, i, amount, s.stakes[i], s'.accounts);
      }
      TotalFollows(s.validators, c.validatorIndex, s'.validators[c.validatorIndex], amount);
    }
  }

  /** What a split of `amount` changes. */
  predicate IsSplit(s: State, s': State, c: Call, amount: nat)
    requires c.stakeIndex < |s.stakes| && c.validatorIndex < |s.validators| && c.stakeAccount in s.accounts
  {
    var record, d := s.stakes[c.stakeIndex], s.accounts[c.stakeAccount];
    && amount <= record.lastUpdateDelegated && amount <= d.stake && !d.deactivating
    && c.splitAccount !in s.accounts
    && s'.accounts == s.accounts[c.stakeAccount := d.(stake := d.stake - amount)]
                                [c.splitAccount := Delegated(d.voter, amount, true)]
    && |s'.stakes| == |s.stakes| + 1
    && s'.stakes[|s.stakes|].stakeAccount == c.splitAccount
    && s'.stakes[..|s.stakes|]
       == s.stakes[c.stakeIndex := record.(lastUpdateDelegated := record.lastUpdateDelegated - amount)]
  }

  lemma SplitKeepsBalance(s: State, s': State, t: Terms, c: Call, amount: nat, v: Validator)
    requires InStep(s) && Checked(s, t, c) == None && IsSplit(s, s', c, amount)
    requires BalanceInStep(v, s.stakes, s.accounts)
    ensures var own := s.accounts[c.stakeAccount].voter == v.account;
            && (own ==> v.activeBalance >= amount)
            && BalanceInStep(
                 v.(activeBalance := if own then SaturatingSub(v.activeBalance, amount) else v.activeBalance),
                 s'.stakes, s'.accounts)
  {
    var i, n, g := c.stakeIndex, |s.stakes|, ActiveOf(v.account, s'.accounts);
    assert s'.stakes[..n][i] == s'.stakes[i];
    BalanceFollows(v, s, i, amount, s'.stakes[i], s'.accounts);
    assert s.stakes[i := s'.stakes[i]] == s'.stakes[..n];
    assert s'.stakes == s'.stakes[..n] + [s'.stakes[n]];
    SumByAppend(s'.stakes[..n], [s'.stakes[n]], g);
    SumOfOne([s'.stakes[n]], g);
  }

  lemma SplitHasOwnAccount(s: State, s': State, c: Call, amount: nat)
    requires OwnAccounts(s.stakes, s.accounts)
    requires c.stakeIndex < |s.stakes| && c.validatorIndex < |s.validators| && c.stakeAccount in s.accounts
    requires IsSplit(s, s', c, amount)
    ensures OwnAccounts(s'.stakes, s'.accounts)
  {
    var n := |s.stakes|;
    forall i | 0 <= i < n
      ensures s'.stakes[i].stakeAccount == s.stakes[i].stakeAccount
    {
      assert s'.stakes[..n][i] == s'.stakes[i];
    }
  }

  lemma SplitKeepsInStep(s: State, t: Terms, c: Call, amount: nat)
    requires InStep(s) && Checked(s, t, c) == None
    ensures KeepsInStep(s, Split(s, t, c, amount))
  {
    var outcome := Split(s, t, c, amount);
    if outcome.Ok? && outcome.value.moved > 0 {
      var s' := outcome.value.state;
      assert IsSplit(s, s', c, amount);
      SplitHasOwnAccount(s, s', c, amount);
      forall k | 0 <= k < |s.validators|
        ensures BalanceInStep(s'.validators[k], s'.stakes, s'.accounts)
        ensures k == c.validatorIndex ==> s.validators[k].activeBalance >= amount
      {
        SplitKeepsBalance(s, s', t, c, amount, s.validators[k]);
      }
      assert s'.validators == s.validators[c.validatorIndex := s'.validators[c.validatorIndex]];
      TotalFollows(s.validators, c.validatorIndex, s'.validators[c.validatorIndex], amount);
    }
  }

  lemma MoveKeepsInStep(s: State, t: Terms, c: Call, wanted: nat)
    requires InStep(s) && Checked(s, t, c) == None
    ensures KeepsInStep(s, Move(s, t, c, wanted))
  {
    WholeKeepsInStep(s, t, c);
    var amount := Min(s.stakes[c.stakeIndex].lastUpdateDelegated, wanted);
    SplitKeepsInStep(s, t, c, amount);
    assert KeepsInStep(s, Ok(Effect(s, 0)));
    assert Move(s, t, c, wanted) in {Ok(Effect(s, 0)), Whole(s, t, c), Split(s, t, c, amount)};
  }

  lemma CoolingDownGrows(s: State, t: Terms, c: Call)
    requires Outcome(s, t, c).Ok?
    ensures var effect := Outcome(s, t, c).value;
            effect.state.coolingDown == s.coolingDown + effect.moved
  {
  }

  /** Over every run the balances stay in step, so that no subtraction saturates, and what leaves the
      active balance is what cools down. */
  lemma {:induction false} StaysInStep(s: State, t: Terms, calls: seq<Call>)
    requires InStep(s)
    ensures var effect := AfterAll(s, t, calls);
            && InStep(effect.state)
            && effect.state.totalActive + effect.moved == s.totalActive
            && effect.state.coolingDown == s.coolingDown + effect.moved
    decreases |calls|
  {
    if calls != [] {
      var c := calls[0];
      if Outcome(s, t, c).Ok? {
        MoveKeepsInStep(s, t, c, Wanted(s, t, s.validators[c.validatorIndex]));
        CoolingDownGrows(s, t, c);
        StaysInStep(Outcome(s, t, c).value.state, t, calls[1..]);
      } else {
        StaysInStep(s, t, calls[1..]);
      }
    }
  }

  /** With 5 too little in the reserve and a minimum stake of 1, a stake of 6 is deactivated as a whole:
      6 are moved, where the client counts 5. */
  lemma WholeStakeGoes()
    ensures exists s: State, t: Terms, c: Call ::
              InStep(s) && Shortfall(s, t) == 5 && Outcome(s, t, c).Ok? && Outcome(s, t, c).value.moved == 6
  {
    var v, d := Validator(Pubkey(1), 0, 6, 0), Delegated(Pubkey(1), 6, false);
    var s := State([v], [StakeRecord(Pubkey(2), 6, 0)], map[Pubkey(2) := d], 6, 0, 0);
    var t, c := Terms(1, 1, 1, true, -5, 0), Call(0, Pubkey(2), 0, Pubkey(3));
    SumOfOne(s.stakes, ActiveOf(v.account, s.accounts));
    SumOfOne(s.validators, Balance);
    assert Wanted(s, t, v) == 5;
    assert InStep(s) && Shortfall(s, t) == 5 && Outcome(s, t, c).Ok? && Outcome(s, t, c).value.moved == 6;
  }
}
