/** The merge crank of the bot: stakes of one validator that the stake program can merge are merged
    into the first of them, working down a snapshot of the stake list. */
module MergeStakes {
  import opened Collections
  import opened StakeTypes
  import opened StakesInfo
  import opened SwapRemoveList
  import opened RemoveValidators

  datatype Kind = ActivationEpoch | FullyActive

  datatype Mergeable = Mergeable(index: nat, kind: Kind, creditsObserved: nat, address: Pubkey, validatorIndex: nat)

  datatype MergeError = ValidatorNotFound(account: Pubkey)

  // ---------- On chain ----------

  /** The list after a merge: the destination's record gets the amount, the source's record goes. */
  function Merged(list: seq<StakeRecord>, destination: nat, source: nat, amount: nat): seq<StakeRecord>
    requires destination < |list| && source < |list|
  {
    SwapRemove(list[destination := list[destination].(lastUpdateDelegated := amount)], source)
  }

  function Credited(validators: seq<ValidatorRecord>, i: nat, extra: nat): seq<ValidatorRecord>
    requires i < |validators|
  {
    validators[i := validators[i].(activeBalance := validators[i].activeBalance + extra)]
  }

  /** The stake list, the validator list and the delegations of the stake accounts. */
  class StakeSystem {
    const list: RecordList<StakeRecord>
    const validators: RecordList<ValidatorRecord>
    var stakes: map<Pubkey, Delegation>
    ghost var log: seq<Attempt>

    constructor (
      list: RecordList<StakeRecord>, validators: RecordList<ValidatorRecord>, stakes: map<Pubkey, Delegation>)
      ensures this.list == list && this.validators == validators && this.stakes == stakes && log == []
    {
      this.list, this.validators, this.stakes := list, validators, stakes;
      log := [];
    }

    ghost predicate Valid()
      reads this, list, list.data, validators, validators.data
    {
      && list.Valid() && validators.Valid()
      && {list, list.data as object} !! {validators, validators.data as object}
    }

    /** The instruction compares amounts and validators, but not the accounts in the records with the
        accounts it merges: a wrong index is not always refused. The merged stake can have gained the
        source's rent, `extra`. A hit is a transaction in which both indices are right. */
    method Merge(destination: Pubkey, destinationIndex: nat, source: Pubkey, sourceIndex: nat, validatorIndex: nat)
      returns (ghost a: Attempt, ok: bool, ghost extra: nat)
      requires Valid()
      modifies this`log, this`stakes, list, list.data, validators, validators.data
      ensures Valid()
      ensures log == old(log) + [a] && a.ok == ok
      ensures a.hit == (NamesAccount(old(list.records), destinationIndex, destination)
                      && NamesAccount(old(list.records), sourceIndex, source))
      ensures a.landed ==>
                && destinationIndex < |old(list.records)| && sourceIndex < |old(list.records)|
                && list.records == Merged(old(list.records), destinationIndex, sourceIndex,
                     old(list.records)[destinationIndex].lastUpdateDelegated
                     + old(list.records)[sourceIndex].lastUpdateDelegated + extra)
                && validatorIndex < |old(validators.records)|
                && validators.records == Credited(old(validators.records), validatorIndex, extra)
                && {destination, source} <= old(stakes).Keys
                && old(stakes)[destination].voter == old(stakes)[source].voter
                     == old(validators.records)[validatorIndex].validatorAccount
                && stakes.Keys == old(stakes).Keys - {source}
                && forall a :: a in stakes ==> stakes[a].voter == old(stakes)[a].voter
      ensures !a.landed ==>
                list.records == old(list.records) && validators.records == old(validators.records)
                  && stakes == old(stakes)
    {
      ok, extra := *, *;
      var fails: bool, rent: nat := *, *;
      extra := rent;
      var amount := CombinedStake(destination, destinationIndex, source, sourceIndex, validatorIndex);
      a := Attempt(
        NamesAccount(list.records, destinationIndex, destination) && NamesAccount(list.records, sourceIndex, source),
        !fails && amount.Some?, ok);
      log := log + [a];
      if !fails && amount.Some? {
        stakes := stakes[destination := stakes[destination].(stake := amount.value + rent)] - {source};
        var validator := validators.Get(validatorIndex);
        var credited := validators.Set(validatorIndex,
          validator.value.(activeBalance := validator.value.activeBalance + rent));
        RecordMerge(destinationIndex, sourceIndex, amount.value + rent);
      }
    }

    /** The checks of the instruction; the stake program does not merge an account with itself. */
    method CombinedStake(
      destination: Pubkey, destinationIndex: nat, source: Pubkey, sourceIndex: nat, validatorIndex: nat)
      returns (amount: Option<nat>)
      requires Valid()
      ensures amount.Some? ==>
                && destinationIndex < |list.records| && sourceIndex < |list.records|
                   && validatorIndex < |validators.records|
                && amount.value == list.records[destinationIndex].lastUpdateDelegated
                                 + list.records[sourceIndex].lastUpdateDelegated
                && destination != source && {destination, source} <= stakes.Keys
                && stakes[destination].voter == stakes[source].voter
                   == validators.records[validatorIndex].validatorAccount
    {
      var validator := validators.Get(validatorIndex);
      var into := list.Get(destinationIndex);
      var from := list.Get(sourceIndex);
      if validator.None? || into.None? || from.None? || destination == source
         || destination !in stakes || source !in stakes {
        return None;
      }
      if into.value.lastUpdateDelegated != stakes[destination].stake
         || from.value.lastUpdateDelegated != stakes[source].stake
         || stakes[destination].voter != validator.value.validatorAccount
         || stakes[source].voter != validator.value.validatorAccount {
        return None;
      }
      amount := Some(stakes[destination].stake + stakes[source].stake);
    }

    /** The source's record goes last, since that makes indices invalid. */
    method RecordMerge(destinationIndex: nat, sourceIndex: nat, amount: nat)
      requires list.Valid() && destinationIndex < |list.records| && sourceIndex < |list.records|
      modifies list, list.data
      ensures list.Valid()
      ensures list.records == Merged(old(list.records), destinationIndex, sourceIndex, amount)
    {
      var into := list.Get(destinationIndex);
      var updated := list.Set(destinationIndex, into.value.(lastUpdateDelegated := amount));
      var removed := list.Remove(sourceIndex);
    }
  }

  ghost predicate NamesAccount(list: seq<StakeRecord>, index: nat, account: Pubkey) {
    index < |list| && list[index].stakeAccount == account
  }

  // ---------- The selection ----------

  ghost predicate IsSnapshot(infos: seq<StakeInfo>, records: seq<StakeRecord>) {
    && |infos| == |records|
    && forall i :: 0 <= i < |infos| ==> infos[i].index == i && infos[i].record == records[i]
  }

  /** Neither deactivating nor partly active: activated in this epoch, or fully active. */
  predicate CanMerge(info: StakeInfo) {
    && info.delegation.Some? && !info.delegation.value.deactivating
    && (info.delegation.value.effective == 0
        || (info.delegation.value.activatingStake == 0 && info.delegation.value.deactivatingStake == 0))
  }

  /** The class of a stake, as far as its own account tells. */
  ghost predicate Describes(m: Mergeable, info: StakeInfo, validators: seq<Pubkey>) {
    && CanMerge(info)
    && m.index == info.index && m.address == info.record.stakeAccount
    && m.creditsObserved == info.delegation.value.creditsObserved
    && (m.kind == ActivationEpoch <==> info.delegation.value.effective == 0)
    && m.validatorIndex < |validators| && validators[m.validatorIndex] == info.delegation.value.voter
    && info.delegation.value.voter !in validators[..m.validatorIndex]
  }

  ghost predicate Ascending(ms: seq<Mergeable>) {
    forall i, j :: 0 <= i < j < |ms| ==> ms[i].index < ms[j].index
  }

  method Position(validators: seq<Pubkey>, account: Pubkey) returns (r: Option<nat>)
    ensures r.Some? ==> r.value < |validators| && validators[r.value] == account && account !in validators[..r.value]
    ensures r.None? ==> account !in validators
  {
    for i := 0 to |validators|
      invariant account !in validators[..i]
    {
      if validators[i] == account {
        return Some(i);
      }
    }
    r := None;
  }

  /** A stake that is not deactivating and whose validator is not known. */
  predicate Lost(info: StakeInfo, validators: seq<Pubkey>) {
    info.delegation.Some? && !info.delegation.value.deactivating && info.delegation.value.voter !in validators
  }

  /** The mergeable stakes in list order. A stake that is not deactivating must have a known validator,
      mergeable or not. */
  method SelectMergeable(infos: seq<StakeInfo>, validators: seq<Pubkey>, ghost records: seq<StakeRecord>)
    returns (r: Result<seq<Mergeable>, MergeError>)
    requires IsSnapshot(infos, records)
    ensures r.Ok? ==> Ascending(r.value)
    ensures r.Ok? ==> forall m :: m in r.value ==> m.index < |infos| && Describes(m, infos[m.index], validators)
    ensures r.Ok? ==> forall i :: 0 <= i < |infos| && CanMerge(infos[i]) ==> exists m :: m in r.value && m.index == i
    ensures r.Err? <==> exists info :: info in infos && Lost(info, validators)
  {
    var ms: seq<Mergeable> := [];
    for i := 0 to |infos|
      invariant forall j :: 0 <= j < i ==> !Lost(infos[j], validators)
      invariant Ascending(ms)
      invariant forall m :: m in ms ==> m.index < i && Describes(m, infos[m.index], validators)
      invariant forall j :: 0 <= j < i && CanMerge(infos[j]) ==> exists m :: m in ms && m.index == j
    {
      var info := infos[i];
      if info.delegation.Some? && !info.delegation.value.deactivating {
        var delegation := info.delegation.value;
        var position := Position(validators, delegation.voter);
        if position.None? {
          assert info in infos;
          return Err(ValidatorNotFound(delegation.voter));
        }
        var kind := None;
        if delegation.effective == 0 {
          kind := Some(ActivationEpoch);
        } else if delegation.activatingStake == 0 && delegation.deactivatingStake == 0 {
          kind := Some(FullyActive);
        }
        if kind.Some? {
          var m := Mergeable(info.index, kind.value, delegation.creditsObserved, info.record.stakeAccount,
            position.value);
          assert m in ms + [m];
          ms := ms + [m];
        }
      }
    }
    r := Ok(ms);
  }

  // ---------- Classes of mergeable stakes ----------

  predicate SameClass(a: Mergeable, b: Mergeable) {
    a.validatorIndex == b.validatorIndex && a.creditsObserved == b.creditsObserved && a.kind == b.kind
  }

  ghost predicate IsFirst(ms: seq<Mergeable>, i: nat)
    requires i < |ms|
  {
    forall j :: 0 <= j < i ==> !SameClass(ms[j], ms[i])
  }

  /** Both stakes are delegated to the same validator with the same credits, neither is deactivating, and
      both are fully active or both not active at all. */
  predicate Alike(a: StakeInfo, b: StakeInfo) {
    && a.delegation.Some? && b.delegation.Some?
    && var d, e := a.delegation.value, b.delegation.value;
       && !d.deactivating && !e.deactivating
       && d.voter == e.voter && d.creditsObserved == e.creditsObserved
       && if d.effective == 0 then e.effective == 0
          else e.effective > 0
               && d.activatingStake == e.activatingStake == d.deactivatingStake == e.deactivatingStake == 0
  }

  ghost predicate HasEarlierAlike(infos: seq<StakeInfo>, i: nat)
    requires i < |infos|
  {
    exists j :: 0 <= j < i && Alike(infos[j], infos[i])
  }

  /** The classes are those of the delegations. */
  lemma ClassesAreAlike(a: Mergeable, b: Mergeable, x: StakeInfo, y: StakeInfo, validators: seq<Pubkey>)
    requires Describes(a, x, validators) && Describes(b, y, validators)
    ensures SameClass(a, b) <==> Alike(x, y)
  {
    if a.validatorIndex < b.validatorIndex {
      assert validators[..b.validatorIndex][a.validatorIndex] == x.delegation.value.voter;
    } else if b.validatorIndex < a.validatorIndex {
      assert validators[..a.validatorIndex][b.validatorIndex] == y.delegation.value.voter;
    }
  }

  ghost predicate Selected(ms: seq<Mergeable>, infos: seq<StakeInfo>, validators: seq<Pubkey>) {
    && Ascending(ms)
    && (forall m :: m in ms ==> m.index < |infos| && Describes(m, infos[m.index], validators))
    && (forall i :: 0 <= i < |infos| && CanMerge(infos[i]) ==> exists m :: m in ms && m.index == i)
  }

  /** A selected stake is the first of its class exactly if there is no earlier one like it in the list. */
  lemma FirstIffNoneAlike(ms: seq<Mergeable>, infos: seq<StakeInfo>, validators: seq<Pubkey>, t: nat)
    requires Selected(ms, infos, validators) && t < |ms|
    ensures ms[t].index < |infos| && (IsFirst(ms, t) <==> !HasEarlierAlike(infos, ms[t].index))
  {
    assert ms[t] in ms;
    if !IsFirst(ms, t) {
      var j :| 0 <= j < t && SameClass(ms[j], ms[t]);
      assert ms[j] in ms;
      ClassesAreAlike(ms[j], ms[t], infos[ms[j].index], infos[ms[t].index], validators);
    }
    if HasEarlierAlike(infos, ms[t].index) {
      var i :| 0 <= i < ms[t].index && Alike(infos[i], infos[ms[t].index]);
      EarlierIsSelected(ms, infos, validators, t, i);
    }
  }

  lemma EarlierIsSelected(
    ms: seq<Mergeable>, infos: seq<StakeInfo>, validators: seq<Pubkey>, t: nat, i: nat)
    requires Selected(ms, infos, validators) && t < |ms| && ms[t] in ms
    requires i < ms[t].index && Alike(infos[i], infos[ms[t].index])
    ensures !IsFirst(ms, t)
  {
    AlikeCanMerge(infos[i], infos[ms[t].index]);
    var m :| m in ms && m.index == i;
    var j :| 0 <= j < |ms| && ms[j] == m;
    ClassesAreAlike(m, ms[t], infos[i], infos[ms[t].index], validators);
    assert j < t && SameClass(ms[j], ms[t]);
  }

  lemma AlikeCanMerge(a: StakeInfo, b: StakeInfo)
    requires Alike(a, b)
    ensures CanMerge(a) && CanMerge(b)
  {
  }

  /** Every class has a first stake. */
  lemma {:induction false} FirstOfClass(ms: seq<Mergeable>, i: nat) returns (j: nat)
    requires i < |ms|
    ensures j <= i && SameClass(ms[j], ms[i]) && IsFirst(ms, j)
    decreases i
  {
    j := i;
    if !IsFirst(ms, i) {
      var k :| 0 <= k < i && SameClass(ms[k], ms[i]);
      j := FirstOfClass(ms, k);
    }
  }

  // ---------- Totals ----------

  function DelegatedTo(v: Pubkey, voters: map<Pubkey, Pubkey>): StakeRecord -> nat {
    (r: StakeRecord) => if r.stakeAccount in voters && voters[r.stakeAccount] == v then r.lastUpdateDelegated else 0
  }

  function ActiveOf(v: Pubkey): ValidatorRecord -> nat {
    (r: ValidatorRecord) => if r.validatorAccount == v then r.activeBalance else 0
  }

  lemma SumByUpdate<T>(s: seq<T>, i: nat, x: T, f: T -> nat)
    requires i < |s|
    ensures SumBy(s[i := x], f) + f(s[i]) == SumBy(s, f) + f(x)
  {
    SumByRemoveAt(s, i, f);
    SumByRemoveAt(s[i := x], i, f);
    assert RemoveAt(s[i := x], i) == RemoveAt(s, i);
  }

  lemma SumBySwapRemove<T>(s: seq<T>, i: nat, f: T -> nat)
    requires i < |s|
    ensures SumBy(SwapRemove(s, i), f) + f(s[i]) == SumBy(s, f)
  {
    if i < |s| - 1 {
      SumByUpdate(s[..|s| - 1], i, s[|s| - 1], f);
    }
  }

  /** The stake recorded for a validator's stake accounts and the validator's own balance move
      together. */
  ghost predicate InStep(
    list: seq<StakeRecord>, validators: seq<ValidatorRecord>,
    list': seq<StakeRecord>, validators': seq<ValidatorRecord>, voters: map<Pubkey, Pubkey>)
  {
    forall v :: SumBy(list', DelegatedTo(v, voters)) + SumBy(validators, ActiveOf(v))
                == SumBy(list, DelegatedTo(v, voters)) + SumBy(validators', ActiveOf(v))
  }

  lemma InStepTrans(
    a: seq<StakeRecord>, x: seq<ValidatorRecord>, b: seq<StakeRecord>, y: seq<ValidatorRecord>,
    c: seq<StakeRecord>, z: seq<ValidatorRecord>, voters: map<Pubkey, Pubkey>)
    requires InStep(a, x, b, y, voters) && InStep(b, y, c, z, voters)
    ensures InStep(a, x, c, z, voters)
  {
    forall v
      ensures SumBy(c, DelegatedTo(v, voters)) + SumBy(x, ActiveOf(v))
              == SumBy(a, DelegatedTo(v, voters)) + SumBy(z, ActiveOf(v))
    {
      assert SumBy(b, DelegatedTo(v, voters)) + SumBy(x, ActiveOf(v))
             == SumBy(a, DelegatedTo(v, voters)) + SumBy(y, ActiveOf(v));
    }
  }

  /** One merge keeps them in step if both records are for stakes of the credited validator. */
  lemma MergeInStep(
    list: seq<StakeRecord>, validators: seq<ValidatorRecord>, list': seq<StakeRecord>,
    validators': seq<ValidatorRecord>,
    d: nat, s: nat, i: nat, amount: nat, extra: nat, voters: map<Pubkey, Pubkey>)
    requires d < |list| && s < |list| && d != s && i < |validators|
    requires forall k :: k == d || k == s ==>
               list[k].stakeAccount in voters && voters[list[k].stakeAccount] == validators[i].validatorAccount
    requires amount == list[d].lastUpdateDelegated + list[s].lastUpdateDelegated + extra
    requires list' == Merged(list, d, s, amount) && validators' == Credited(validators, i, extra)
    ensures InStep(list, validators, list', validators', voters)
  {
    var record := list[d].(lastUpdateDelegated := amount);
    var validator := validators[i].(activeBalance := validators[i].activeBalance + extra);
    forall v
      ensures SumBy(list', DelegatedTo(v, voters)) + SumBy(validators, ActiveOf(v))
              == SumBy(list, DelegatedTo(v, voters)) + SumBy(validators', ActiveOf(v))
    {
      SumByUpdate(list, d, record, DelegatedTo(v, voters));
      SumBySwapRemove(list[d := record], s, DelegatedTo(v, voters));
      SumByUpdate(validators, i, validator, ActiveOf(v));
    }
  }

  // ---------- The merges ----------

  ghost predicate TakenFrom(ms: seq<Mergeable>, records: seq<StakeRecord>) {
    && Ascending(ms)
    && forall i :: 0 <= i < |ms| ==> NamesAccount(records, ms[i].index, ms[i].address)
  }

  /** How far down the list the run has come when it has dealt with the stakes from `s` on. */
  ghost function Bound(ms: seq<Mergeable>, s: nat, records: seq<StakeRecord>): nat {
    if s < |ms| then ms[s].index else |records|
  }

  ghost predicate SameAccounts(current: seq<StakeRecord>, records: seq<StakeRecord>) {
    && |current| == |records|
    && forall i :: 0 <= i < |records| ==> current[i].stakeAccount == records[i].stakeAccount
  }

  /** Removed records are those of stakes from `s` on that are not the first of their class. */
  ghost predicate OnlyLater(ms: seq<Mergeable>, s: nat, removed: set<nat>) {
    && (forall i :: i in removed ==> exists t :: 0 <= t < |ms| && ms[t].index == i)
    && (forall t :: 0 <= t < |ms| && ms[t].index in removed ==> s <= t && !IsFirst(ms, t))
  }

  ghost predicate AllLater(ms: seq<Mergeable>, s: nat, removed: set<nat>) {
    forall t :: s <= t < |ms| && !IsFirst(ms, t) ==> ms[t].index in removed
  }

  /** The list when the stakes from `s` on have been dealt with. */
  ghost predicate Shrunk(
    list: seq<StakeRecord>, records: seq<StakeRecord>, ms: seq<Mergeable>, s: nat,
    current: seq<StakeRecord>, removed: set<nat>)
  {
    && DownTo(list, current, Bound(ms, s, records), removed)
    && SameAccounts(current, records)
    && OnlyLater(ms, s, removed)
  }

  ghost predicate Represented(ms: seq<Mergeable>, removed: set<nat>, m: Mergeable) {
    exists j :: 0 <= j < |ms| && ms[j].index !in removed && SameClass(ms[j], m)
  }

  /** When exactly the stakes that are not the first of their class are gone, no two of those left can
      be merged any more, and no class is lost. */
  lemma FirstsRepresentClasses(ms: seq<Mergeable>, removed: set<nat>)
    requires OnlyLater(ms, 0, removed) && AllLater(ms, 0, removed)
    ensures forall i, j ::
              0 <= i < j < |ms| && ms[i].index !in removed && ms[j].index !in removed ==> !SameClass(ms[i], ms[j])
    ensures forall m :: m in ms ==> Represented(ms, removed, m)
  {
    forall m | m in ms
      ensures Represented(ms, removed, m)
    {
      var i :| 0 <= i < |ms| && ms[i] == m;
      var j := FirstOfClass(ms, i);
      assert ms[j].index !in removed;
    }
  }

  /** Only stakes with an earlier one like them are removed, and all of them if none is passed over. */
  lemma RemovedHaveEarlierAlike(
    ms: seq<Mergeable>, infos: seq<StakeInfo>, validators: seq<Pubkey>, removed: set<nat>)
    requires Selected(ms, infos, validators) && OnlyLater(ms, 0, removed)
    ensures forall i :: i in removed ==> i < |infos| && HasEarlierAlike(infos, i)
    ensures AllLater(ms, 0, removed) ==>
              forall i :: 0 <= i < |infos| && HasEarlierAlike(infos, i) ==> i in removed
  {
    forall i | i in removed
      ensures i < |infos| && HasEarlierAlike(infos, i)
    {
      var t :| 0 <= t < |ms| && ms[t].index == i;
      FirstIffNoneAlike(ms, infos, validators, t);
    }
    if AllLater(ms, 0, removed) {
      forall i | 0 <= i < |infos| && HasEarlierAlike(infos, i)
        ensures i in removed
      {
        var k :| 0 <= k < i && Alike(infos[k], infos[i]);
        AlikeCanMerge(infos[k], infos[i]);
        var m :| m in ms && m.index == i;
        var t :| 0 <= t < |ms| && ms[t] == m;
        FirstIffNoneAlike(ms, infos, validators, t);
      }
    }
  }

  lemma BoundBelow(ms: seq<Mergeable>, s: nat, records: seq<StakeRecord>)
    requires TakenFrom(ms, records) && s < |ms|
    ensures Bound(ms, s, records) < Bound(ms, s + 1, records)
  {
  }

  lemma Skip(
    list: seq<StakeRecord>, records: seq<StakeRecord>, ms: seq<Mergeable>, s: nat,
    current: seq<StakeRecord>, removed: set<nat>)
    requires TakenFrom(ms, records) && s < |ms|
    requires Shrunk(list, records, ms, s + 1, current, removed)
    ensures Shrunk(list, records, ms, s, current, removed)
  {
    BoundBelow(ms, s, records);
    PassOverTo(list, current, Bound(ms, s + 1, records), Bound(ms, s, records), removed);
  }

  /** Both indices that are sent denote the accounts they denoted in the snapshot. */
  lemma IndicesHold(
    list: seq<StakeRecord>, records: seq<StakeRecord>, ms: seq<Mergeable>, d: nat, s: nat,
    current: seq<StakeRecord>, removed: set<nat>)
    requires TakenFrom(ms, records) && d < s < |ms|
    requires Shrunk(list, records, ms, s + 1, current, removed)
    ensures NamesAccount(list, ms[d].index, ms[d].address) && NamesAccount(list, ms[s].index, ms[s].address)
    ensures ms[d].index < ms[s].index
  {
    BoundBelow(ms, s, records);
  }

  /** The snapshot with the amount that the destination has after the merge. */
  ghost function WithAmount(current: seq<StakeRecord>, i: nat, amount: nat): seq<StakeRecord>
    requires i < |current|
  {
    current[i := current[i].(lastUpdateDelegated := amount)]
  }

  lemma MergeShrinks(
    list: seq<StakeRecord>, records: seq<StakeRecord>, ms: seq<Mergeable>, d: nat, s: nat,
    current: seq<StakeRecord>, removed: set<nat>, amount: nat)
    requires TakenFrom(ms, records) && d < s < |ms| && !IsFirst(ms, s)
    requires Shrunk(list, records, ms, s + 1, current, removed)
    ensures ms[d].index < ms[s].index < |list| && ms[d].index < |current|
    ensures Shrunk(Merged(list, ms[d].index, ms[s].index, amount), records, ms, s,
              WithAmount(current, ms[d].index, amount), removed + {ms[s].index})
    ensures AllLater(ms, s + 1, removed) ==> AllLater(ms, s, removed + {ms[s].index})
  {
    var i, k := ms[d].index, ms[s].index + 1;
    BoundBelow(ms, s, records);
    PassOverTo(list, current, Bound(ms, s + 1, records), k, removed);
    UpdateBelow(list, current, k, removed, i, list[i].(lastUpdateDelegated := amount));
    RemoveBelow(WithAmount(list, i, amount), WithAmount(current, i, amount), k, removed);
    LaterMore(ms, s, removed);
  }

  lemma LaterMore(ms: seq<Mergeable>, s: nat, removed: set<nat>)
    requires Ascending(ms) && s < |ms| && !IsFirst(ms, s) && OnlyLater(ms, s + 1, removed)
    ensures OnlyLater(ms, s, removed + {ms[s].index})
    ensures AllLater(ms, s + 1, removed) ==> AllLater(ms, s, removed + {ms[s].index})
  {
  }

  /** The first stake before `source` that it can be merged into. The clock is looked at after every
      stake that does not match, if there is a time limit. */
  method FindDestination(ms: seq<Mergeable>, source: nat, maxSeconds: nat)
    returns (destination: Option<nat>, timeIsUp: bool)
    requires source < |ms|
    ensures destination.Some? ==>
              destination.value < source && SameClass(ms[destination.value], ms[source])
                && IsFirst(ms, destination.value)
    ensures destination.None? && !timeIsUp ==> IsFirst(ms, source)
    ensures timeIsUp ==> maxSeconds > 0 && destination.None?
  {
    for d := 0 to source
      invariant forall c :: 0 <= c < d ==> !SameClass(ms[c], ms[source])
    {
      if ms[d].validatorIndex == ms[source].validatorIndex {
        if ms[d].creditsObserved == ms[source].creditsObserved && ms[d].kind == ms[source].kind {
          return Some(d), false;
        }
      }
      if maxSeconds > 0 {
        var elapsed: nat := *;
        if elapsed > maxSeconds {
          return None, true;
        }
      }
    }
    return None, false;
  }

  ghost predicate VotersAre(stakes: map<Pubkey, Delegation>, voters: map<Pubkey, Pubkey>) {
    forall a :: a in stakes ==> a in voters && stakes[a].voter == voters[a]
  }

  /** One transaction. */
  method MergePair(
    ms: seq<Mergeable>, d: nat, s: nat, system: StakeSystem,
    ghost records: seq<StakeRecord>, ghost current: seq<StakeRecord>, ghost removed: set<nat>,
    ghost voters: map<Pubkey, Pubkey>)
    returns (ghost a: Attempt, ok: bool, ghost current': seq<StakeRecord>, ghost removed': set<nat>)
    requires system.Valid() && TakenFrom(ms, records) && d < s < |ms| && SameClass(ms[d], ms[s])
    requires Shrunk(system.list.records, records, ms, s + 1, current, removed)
    requires VotersAre(system.stakes, voters)
    modifies system`log, system`stakes, system.list, system.list.data, system.validators, system.validators.data
    ensures system.Valid() && VotersAre(system.stakes, voters)
    ensures system.log == old(system.log) + [a] && a.hit && a.ok == ok
    ensures Shrunk(system.list.records, records, ms, s, current', removed')
    ensures a.landed && AllLater(ms, s + 1, removed) ==> AllLater(ms, s, removed')
    ensures InStep(old(system.list.records), old(system.validators.records),
              system.list.records, system.validators.records, voters)
  {
    ghost var list, validators := system.list.records, system.validators.records;
    ghost var extra;
    IndicesHold(list, records, ms, d, s, current, removed);
    a, ok, extra := system.Merge(ms[d].address, ms[d].index, ms[s].address, ms[s].index, ms[d].validatorIndex);
    if a.landed {
      ghost var amount := list[ms[d].index].lastUpdateDelegated + list[ms[s].index].lastUpdateDelegated + extra;
      MergeLanded(list, validators, system.list.records, system.validators.records,
        records, ms, d, s, current, removed, amount, extra, voters);
      current', removed' := WithAmount(current, ms[d].index, amount), removed + {ms[s].index};
    } else {
      Skip(list, records, ms, s, current, removed);
      current', removed' := current, removed;
    }
  }

  lemma MergeLanded(
    list: seq<StakeRecord>, validators: seq<ValidatorRecord>, list': seq<StakeRecord>,
    validators': seq<ValidatorRecord>,
    records: seq<StakeRecord>, ms: seq<Mergeable>, d: nat, s: nat,
    current: seq<StakeRecord>, removed: set<nat>, amount: nat, extra: nat, voters: map<Pubkey, Pubkey>)
    requires TakenFrom(ms, records) && d < s < |ms| && SameClass(ms[d], ms[s])
    requires Shrunk(list, records, ms, s + 1, current, removed)
    requires NamesAccount(list, ms[d].index, ms[d].address) && NamesAccount(list, ms[s].index, ms[s].address)
    requires amount == list[ms[d].index].lastUpdateDelegated + list[ms[s].index].lastUpdateDelegated + extra
    requires list' == Merged(list, ms[d].index, ms[s].index, amount)
    requires ms[d].validatorIndex < |validators| && validators' == Credited(validators, ms[d].validatorIndex, extra)
    requires forall a :: a in {ms[d].address, ms[s].address} ==>
               a in voters && voters[a] == validators[ms[d].validatorIndex].validatorAccount
    ensures ms[d].index < |current|
    ensures Shrunk(list', records, ms, s, WithAmount(current, ms[d].index, amount), removed + {ms[s].index})
    ensures AllLater(ms, s + 1, removed) ==> AllLater(ms, s, removed + {ms[s].index})
    ensures InStep(list, validators, list', validators', voters)
  {
    MergeShrinks(list, records, ms, d, s, current, removed, amount);
    MergeInStep(list, validators, list', validators',
      ms[d].index, ms[s].index, ms[d].validatorIndex, amount, extra, voters);
  }

  method MergeAll(ms: seq<Mergeable>, system: StakeSystem, maxSeconds: nat, ghost voters: map<Pubkey, Pubkey>)
    returns (countOk: nat, countErr: nat, timeIsUp: bool, ghost s: nat, ghost current: seq<StakeRecord>,
             ghost removed: set<nat>)
    requires system.Valid() && TakenFrom(ms, system.list.records) && VotersAre(system.stakes, voters)
             && system.log == []
    modifies system`log, system`stakes, system.list, system.list.data, system.validators, system.validators.data
    ensures system.Valid() && AllHit(system.log)
    ensures Shrunk(system.list.records, old(system.list.records), ms, s, current, removed)
    ensures AllLanded(system.log) && !timeIsUp ==> AllLater(ms, 0, removed)
    ensures timeIsUp ==> maxSeconds > 0
    ensures countOk + countErr == |system.log| && (countErr == 0 <==> AllOk(system.log))
    ensures InStep(old(system.list.records), old(system.validators.records),
              system.list.records, system.validators.records, voters)
  {
    ghost var records, validators := system.list.records, system.validators.records;
    DownFromEnd(records);
    countOk, countErr, timeIsUp, s, current, removed := 0, 0, false, |ms|, records, {};
    var source: nat := |ms|;
    while source > 1
      invariant source == s <= |ms| && system.Valid() && VotersAre(system.stakes, voters) && !timeIsUp
      invariant AllHit(system.log) && countOk + countErr == |system.log| && (countErr == 0 <==> AllOk(system.log))
      invariant Shrunk(system.list.records, records, ms, s, current, removed)
      invariant AllLanded(system.log) ==> AllLater(ms, s, removed)
      invariant InStep(records, validators, system.list.records, system.validators.records, voters)
    {
      source := source - 1;
      var destination;
      destination, timeIsUp := FindDestination(ms, source, maxSeconds);
      if timeIsUp {
        break;
      }
      if destination.Some? {
        ghost var list, balances, log := system.list.records, system.validators.records, system.log;
        var ok;
        ghost var a;
        a, ok, current, removed := MergePair(ms, destination.value, source, system, records, current, removed, voters);
        InStepTrans(records, validators, list, balances, system.list.records, system.validators.records, voters);
        LogOneMore(log, a);
        if ok {
          countOk := countOk + 1;
        } else {
          countErr := countErr + 1;
        }
      } else {
        Skip(system.list.records, records, ms, source, current, removed);
      }
      s := source;
    }
  }

  /** Whatever transactions fail, all indices that are sent are right, only stakes that have an earlier
      one in their class are merged away, and every other record stays. If all land and time does
      not run out, exactly the first stake of each class is left. */
  method Process(infos: seq<StakeInfo>, system: StakeSystem, validators: seq<Pubkey>, maxSeconds: nat)
    returns (r: Result<bool, MergeError>, ghost ms: seq<Mergeable>, ghost current: seq<StakeRecord>,
             ghost removed: set<nat>)
    requires system.Valid() && IsSnapshot(infos, system.list.records) && system.log == []
    modifies system`log, system`stakes, system.list, system.list.data, system.validators, system.validators.data
    ensures system.Valid() && AllHit(system.log)
    ensures TakenFrom(ms, old(system.list.records))
    ensures multiset(system.list.records) == Survivors(current, 0, removed)
    ensures SameAccounts(current, old(system.list.records)) && OnlyLater(ms, 0, removed)
    ensures r.Ok? ==> forall i :: 0 <= i < |infos| && CanMerge(infos[i]) ==> exists m :: m in ms && m.index == i
    ensures r.Ok? ==> forall m :: m in ms ==> m.index < |infos| && Describes(m, infos[m.index], validators)
    ensures r == Ok(true) && AllLanded(system.log) ==> AllLater(ms, 0, removed)
    ensures r.Ok? ==> forall i :: i in removed ==> i < |infos| && HasEarlierAlike(infos, i)
    ensures r == Ok(true) && AllLanded(system.log) ==>
              forall i :: 0 <= i < |infos| && HasEarlierAlike(infos, i) ==> i in removed
    ensures r == Ok(false) ==> maxSeconds > 0
    ensures r.Err? <==> exists info :: info in infos && info.delegation.Some? && !info.delegation.value.deactivating
                         && info.delegation.value.voter !in validators
    ensures r.Err? ==> system.log == []
    ensures InStep(old(system.list.records), old(system.validators.records),
              system.list.records, system.validators.records, Voters(old(system.stakes)))
  {
    ghost var records := system.list.records;
    var selected := SelectMergeable(infos, validators, records);
    ghost var s;
    match selected {
      case Err(error) =>
        r, ms, s, current, removed := Err(error), [], 0, records, {};
        DownFromEnd(records);
      case Ok(mergeable) =>
        ms := mergeable;
        FromInfos(ms, infos, records, validators);
        var countOk, countErr, timeIsUp;
        countOk, countErr, timeIsUp, s, current, removed :=
          MergeAll(mergeable, system, maxSeconds, Voters(system.stakes));
        r := Ok(!timeIsUp);
    }
    PassOverTo(system.list.records, current, Bound(ms, s, records), 0, removed);
    DownToStart(system.list.records, current, removed);
    if r.Ok? {
      RemovedHaveEarlierAlike(ms, infos, validators, removed);
    }
  }

  ghost function Voters(stakes: map<Pubkey, Delegation>): map<Pubkey, Pubkey> {
    map a | a in stakes :: stakes[a].voter
  }

  lemma FromInfos(ms: seq<Mergeable>, infos: seq<StakeInfo>, records: seq<StakeRecord>, validators: seq<Pubkey>)
    requires IsSnapshot(infos, records) && Ascending(ms)
    requires forall m :: m in ms ==> m.index < |infos| && Describes(m, infos[m.index], validators)
    ensures TakenFrom(ms, records)
  {
    forall i | 0 <= i < |ms|
      ensures NamesAccount(records, ms[i].index, ms[i].address)
    {
      assert ms[i] in ms;
    }
  }
}
