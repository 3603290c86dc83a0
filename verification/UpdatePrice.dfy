/** The update-price crank of the bot: one transaction for each stake account, updating the record of
    an active stake and removing the record of a deactivated one. */
module UpdatePrice {
  import opened Collections
  import opened StakeTypes
  import opened StakesInfo
  import opened SwapRemoveList

  datatype Error = UndelegatedStake | UnknownValidator

  /** The on-chain side. A transaction may fail for any reason; it also fails if the record at the
      index is not for the stake account. */
  class StakeSystem {
    const list: RecordList<StakeRecord>
    ghost var log: seq<Attempt>

    constructor (list: RecordList<StakeRecord>)
      ensures this.list == list && log == []
    {
      this.list := list;
      log := [];
    }

    method UpdateActive(index: nat, stakeAccount: Pubkey, delegated: nat, epoch: nat)
      returns (ghost a: Attempt, ok: bool)
      requires list.Valid()
      modifies this`log, list, list.data
      ensures list.Valid()
      ensures log == old(log) + [a] && a.ok == ok
      ensures a.hit == (index < |old(list.records)| && old(list.records)[index].stakeAccount == stakeAccount)
      ensures a.landed ==> a.hit
      ensures list.records ==
              if a.landed then old(list.records)[index := StakeRecord(stakeAccount, delegated, epoch)]
              else old(list.records)
    {
      ok := *;
      ghost var landed := false;
      var fails: bool := *;
      var record := list.Get(index);
      ghost var hit := record.Some? && record.value.stakeAccount == stakeAccount;
      if record.Some? && record.value.stakeAccount == stakeAccount && !fails {
        var changed := list.Set(index, StakeRecord(stakeAccount, delegated, epoch));
        landed := changed;
      }
      a := Attempt(hit, landed, ok);
      log := log + [a];
    }

    method UpdateDeactivated(index: nat, stakeAccount: Pubkey)
      returns (ghost a: Attempt, ok: bool)
      requires list.Valid()
      modifies this`log, list, list.data
      ensures list.Valid()
      ensures log == old(log) + [a] && a.ok == ok
      ensures a.hit == (index < |old(list.records)| && old(list.records)[index].stakeAccount == stakeAccount)
      ensures a.landed ==> a.hit
      ensures list.records == if a.landed then SwapRemove(old(list.records), index) else old(list.records)
    {
      ok := *;
      ghost var landed := false;
      var fails: bool := *;
      var record := list.Get(index);
      ghost var hit := record.Some? && record.value.stakeAccount == stakeAccount;
      if record.Some? && record.value.stakeAccount == stakeAccount && !fails {
        var removed := list.Remove(index);
        landed := removed;
      }
      a := Attempt(hit, landed, ok);
      log := log + [a];
    }
  }

  /** The stakes whose records may go: deactivated, with nothing effective any more, and not yet seen
      in this epoch. */
  predicate IsSpent(info: StakeInfo, epoch: nat) {
    && info.record.lastUpdateEpoch != epoch
    && info.delegation.Some? && info.delegation.value.deactivating && info.delegation.value.effective == 0
  }

  /** The snapshot of the records, last index first. */
  ghost predicate IsSnapshot(infos: seq<StakeInfo>, records: seq<StakeRecord>) {
    && |infos| == |records|
    && forall i :: 0 <= i < |infos| ==> infos[i].index == |infos| - 1 - i && infos[i].record == records[|infos| - 1 - i]
  }

  /** The records with the updates of this run; accounts keep their places. */
  ghost predicate UpdatedFrom(current: seq<StakeRecord>, records: seq<StakeRecord>) {
    && |current| == |records|
    && forall i :: 0 <= i < |records| ==> current[i].stakeAccount == records[i].stakeAccount
  }

  /** What a run, complete or not, leaves behind: the records not removed, in some order, each at most
      updated, and only spent ones removed. */
  ghost predicate Settled(
    list: seq<StakeRecord>, records: seq<StakeRecord>, infos: seq<StakeInfo>, epoch: nat,
    current: seq<StakeRecord>, removed: set<nat>)
  {
    && UpdatedFrom(current, records)
    && multiset(list) == Survivors(current, 0, removed)
    && OnlySpent(infos, epoch, removed)
  }

  ghost predicate OnlySpent(infos: seq<StakeInfo>, epoch: nat, removed: set<nat>) {
    forall j :: j in removed ==> j < |infos| && IsSpent(infos[|infos| - 1 - j], epoch)
  }

  /** The record that the crank wants in the list for a stake that stays. */
  function Wanted(info: StakeInfo, epoch: nat): StakeRecord {
    if info.record.lastUpdateEpoch != epoch && info.delegation.Some? && !info.delegation.value.deactivating
       && info.delegation.value.stake != info.record.lastUpdateDelegated
    then StakeRecord(info.record.stakeAccount, info.delegation.value.stake, epoch)
    else info.record
  }

  /** From index `k` on, every stake has been dealt with as it should. */
  ghost predicate Done(infos: seq<StakeInfo>, epoch: nat, k: nat, current: seq<StakeRecord>, removed: set<nat>) {
    && |current| == |infos|
    && forall j :: k <= j < |infos| ==>
         var info := infos[|infos| - 1 - j];
         current[j] == Wanted(info, epoch) && (j in removed <==> IsSpent(info, epoch))
  }

  /** Whether a transaction is sent for a stake: it is spent, or its record is not as it should be. */
  predicate NeedsTransaction(info: StakeInfo, epoch: nat) {
    IsSpent(info, epoch)
    || (info.record.lastUpdateEpoch != epoch && info.delegation.Some? && !info.delegation.value.deactivating
        && info.delegation.value.stake != info.record.lastUpdateDelegated)
  }

  function TransactionFor(epoch: nat): StakeInfo -> nat {
    (info: StakeInfo) => if NeedsTransaction(info, epoch) then 1 else 0
  }

  /** How many transactions are sent for the first `i` stakes. */
  function Sent(infos: seq<StakeInfo>, i: nat, epoch: nat): nat
    requires i <= |infos|
  {
    SumBy(infos[..i], TransactionFor(epoch))
  }

  lemma SentOneMore(infos: seq<StakeInfo>, i: nat, epoch: nat)
    requires i < |infos|
    ensures Sent(infos, i + 1, epoch) == Sent(infos, i, epoch) + TransactionFor(epoch)(infos[i])
  {
    assert infos[..i + 1][..i] == infos[..i];
  }

  predicate NeedsUpdate(infos: seq<StakeInfo>, epoch: nat) {
    exists i :: 0 <= i < |infos| && infos[i].record.lastUpdateEpoch < epoch
  }

  /** A crank that is skipped misses only records of a later epoch; if there are none, a stake that needs a
      transaction is reason enough for the crank. */
  lemma NothingIsMissed(infos: seq<StakeInfo>, epoch: nat)
    ensures !NeedsUpdate(infos, epoch) ==>
              forall i :: 0 <= i < |infos| && infos[i].record.lastUpdateEpoch <= epoch ==>
                Wanted(infos[i], epoch) == infos[i].record && !IsSpent(infos[i], epoch)
    ensures (forall i :: 0 <= i < |infos| ==> infos[i].record.lastUpdateEpoch <= epoch) ==>
              (exists i :: 0 <= i < |infos| && NeedsTransaction(infos[i], epoch)) ==> NeedsUpdate(infos, epoch)
  {
  }

  /** When every stake has been dealt with, the record of a stake that is not deactivating holds what its
      account has delegated, unless the stake was seen in this epoch; and the records that have gone are
      those of the stakes not seen in this epoch that are deactivated with nothing effective any more. */
  lemma RecordsAgree(
    infos: seq<StakeInfo>, epoch: nat, current: seq<StakeRecord>, removed: set<nat>, j: nat)
    requires Done(infos, epoch, 0, current, removed) && j < |infos|
    ensures var info := infos[|infos| - 1 - j];
            var unseen := info.record.lastUpdateEpoch != epoch && info.delegation.Some?;
            && current[j].stakeAccount == info.record.stakeAccount
            && (unseen && !info.delegation.value.deactivating ==>
                  && current[j].lastUpdateDelegated == info.delegation.value.stake
                  && (info.delegation.value.stake != info.record.lastUpdateDelegated ==>
                        current[j].lastUpdateEpoch == epoch))
            && (!unseen || info.delegation.value.deactivating ==> current[j] == info.record)
            && (j in removed <==>
                  unseen && info.delegation.value.deactivating && info.delegation.value.effective == 0)
  {
  }

  /** The effect of dealing with the stake at index `k`, on the updated snapshot. */
  ghost predicate Dealt(
    info: StakeInfo, epoch: nat, landed: bool,
    current: seq<StakeRecord>, removed: set<nat>, current': seq<StakeRecord>, removed': set<nat>)
  {
    var k := info.index;
    && UpdatedFrom(current', current) && k < |current|
    && (forall j :: 0 <= j < |current| && j != k ==> current'[j] == current[j])
    && (removed' == removed || (removed' == removed + {k} && IsSpent(info, epoch)))
    && (landed ==> current'[k] == Wanted(info, epoch) && (k in removed' <==> IsSpent(info, epoch)))
  }

  method ProcessActive(
    info: StakeInfo, system: StakeSystem, epoch: nat, ghost current: seq<StakeRecord>, ghost removed: set<nat>)
    returns (ghost a: Attempt, ok: bool, ghost current': seq<StakeRecord>)
    requires system.list.Valid()
    requires DownTo(system.list.records, current, info.index + 1, removed)
    requires current[info.index] == info.record
    requires info.record.lastUpdateEpoch != epoch && info.delegation.Some? && !info.delegation.value.deactivating
    requires info.delegation.value.stake != info.record.lastUpdateDelegated
    modifies system`log, system.list, system.list.data
    ensures system.list.Valid() && system.log == old(system.log) + [a] && a.hit && a.ok == ok
    ensures Dealt(info, epoch, a.landed, current, removed, current', removed)
    ensures DownTo(system.list.records, current', info.index, removed)
  {
    ghost var k := info.index + 1;
    ghost var before := system.list.records;
    a, ok := system.UpdateActive(info.index, info.record.stakeAccount, info.delegation.value.stake, epoch);
    current' := current;
    if a.landed {
      ghost var record := StakeRecord(info.record.stakeAccount, info.delegation.value.stake, epoch);
      UpdateBelow(before, current, k, removed, info.index, record);
      current' := current[info.index := record];
    }
    PassOver(system.list.records, current', k, removed);
  }

  method ProcessDeactivated(
    info: StakeInfo, system: StakeSystem, epoch: nat, ghost current: seq<StakeRecord>, ghost removed: set<nat>)
    returns (ghost a: Attempt, ok: bool, ghost removed': set<nat>)
    requires system.list.Valid()
    requires DownTo(system.list.records, current, info.index + 1, removed)
    requires current[info.index] == info.record
    requires IsSpent(info, epoch)
    modifies system`log, system.list, system.list.data
    ensures system.list.Valid() && system.log == old(system.log) + [a] && a.hit && a.ok == ok
    ensures Dealt(info, epoch, a.landed, current, removed, current, removed')
    ensures DownTo(system.list.records, current, info.index, removed')
  {
    ghost var k := info.index + 1;
    ghost var before := system.list.records;
    a, ok := system.UpdateDeactivated(info.index, info.record.stakeAccount);
    removed' := removed;
    if a.landed {
      RemoveBelow(before, current, k, removed);
      removed' := removed + {info.index};
    } else {
      PassOver(before, current, k, removed);
    }
  }

  /** Why the crank cannot deal with a stake. */
  function Problem(info: StakeInfo, validators: set<Pubkey>, epoch: nat): Option<Error> {
    if info.record.lastUpdateEpoch == epoch then None
    else if info.delegation == None then Some(UndelegatedStake)
    else
      var Delegation(voter, stake, deactivating, _, _, _, _) := info.delegation.value;
      if !deactivating && stake != info.record.lastUpdateDelegated && voter !in validators then Some(UnknownValidator)
      else None
  }

  ghost predicate NoProblem(infos: seq<StakeInfo>, i: nat, validators: set<Pubkey>, epoch: nat) {
    i <= |infos| && forall j :: 0 <= j < i ==> Problem(infos[j], validators, epoch).None?
  }

  /** The crank stops at the first stake that it cannot deal with. */
  ghost predicate FirstProblem(infos: seq<StakeInfo>, i: nat, validators: set<Pubkey>, epoch: nat, error: Error)
    requires i < |infos|
  {
    NoProblem(infos, i, validators, epoch) && Problem(infos[i], validators, epoch) == Some(error)
  }

  /** Every stake that was not seen in this epoch is delegated, and to a known validator if its record is to
      be updated. */
  ghost predicate AllManageable(infos: seq<StakeInfo>, validators: set<Pubkey>, epoch: nat) {
    forall i :: 0 <= i < |infos| && infos[i].record.lastUpdateEpoch != epoch ==>
      && infos[i].delegation.Some?
      && (!infos[i].delegation.value.deactivating
          && infos[i].delegation.value.stake != infos[i].record.lastUpdateDelegated ==>
            infos[i].delegation.value.voter in validators)
  }

  lemma ManageableIff(infos: seq<StakeInfo>, validators: set<Pubkey>, epoch: nat)
    ensures NoProblem(infos, |infos|, validators, epoch) <==> AllManageable(infos, validators, epoch)
  {
  }

  /** One stake account. `txErr` says that the client was told of a failure; on an `error` nothing was
      sent. */
  method ProcessOne(
    info: StakeInfo, system: StakeSystem, validators: set<Pubkey>, epoch: nat,
    ghost current: seq<StakeRecord>, ghost removed: set<nat>)
    returns (error: Option<Error>, txErr: bool, ghost landed: bool, ghost current': seq<StakeRecord>,
             ghost removed': set<nat>)
    requires system.list.Valid()
    requires DownTo(system.list.records, current, info.index + 1, removed)
    requires current[info.index] == info.record
    modifies system`log, system.list, system.list.data
    ensures system.list.Valid() && Logged(old(system.log), system.log, landed, txErr)
    ensures |system.log| == |old(system.log)| + (if error.None? then TransactionFor(epoch)(info) else 0)
    ensures error.None? ==>
              && Dealt(info, epoch, landed, current, removed, current', removed')
              && DownTo(system.list.records, current', info.index, removed')
    ensures error == Problem(info, validators, epoch)
    ensures error.Some? ==>
              && system.list.records == old(system.list.records) && system.log == old(system.log)
  {
    error, txErr, landed, current', removed' := None, false, true, current, removed;
    var needed, removal := false, false;
    if info.record.lastUpdateEpoch != epoch {
      if info.delegation == None {
        error := Some(UndelegatedStake);
        return;
      }
      if !info.delegation.value.deactivating {
        needed := info.delegation.value.stake != info.record.lastUpdateDelegated;
        if needed && info.delegation.value.voter !in validators {
          error := Some(UnknownValidator);
          return;
        }
      } else {
        removal := info.delegation.value.effective == 0;
      }
    }
    ghost var log := system.log;
    ghost var a;
    var ok := true;
    if needed {
      a, ok, current' := ProcessActive(info, system, epoch, current, removed);
      LogOneMore(log, a);
      landed := a.landed;
    } else if removal {
      a, ok, removed' := ProcessDeactivated(info, system, epoch, current, removed);
      LogOneMore(log, a);
      landed := a.landed;
    } else {
      PassOver(system.list.records, current, info.index + 1, removed);
    }
    txErr := !ok;
  }

  /** What one stake adds to the log: at most one transaction, for the record that was meant. */
  ghost predicate Logged(before: seq<Attempt>, log: seq<Attempt>, landed: bool, txErr: bool) {
    && before <= log && |log| <= |before| + 1
    && (AllHit(before) ==> AllHit(log))
    && (AllLanded(log) <==> AllLanded(before) && landed)
    && (AllOk(log) <==> AllOk(before) && !txErr)
  }

  /** One pass of the loop. */
  method ProcessNext(
    infos: seq<StakeInfo>, i: nat, system: StakeSystem, validators: set<Pubkey>, epoch: nat,
    ghost records: seq<StakeRecord>, ghost current: seq<StakeRecord>, ghost removed: set<nat>)
    returns (error: Option<Error>, txErr: bool, ghost landed: bool, ghost current': seq<StakeRecord>,
             ghost removed': set<nat>)
    requires system.list.Valid() && i < |infos| && NoProblem(infos, i, validators, epoch)
    requires Running(system.list.records, infos, records, epoch, i, current, removed)
    modifies system`log, system.list, system.list.data
    ensures system.list.Valid() && Logged(old(system.log), system.log, landed, txErr)
    ensures error.None? ==> Running(system.list.records, infos, records, epoch, i + 1, current', removed')
    ensures error.None? && landed && Done(infos, epoch, |infos| - i, current, removed) ==>
              Done(infos, epoch, |infos| - (i + 1), current', removed')
    ensures error == Problem(infos[i], validators, epoch)
    ensures error.None? ==> NoProblem(infos, i + 1, validators, epoch)
    ensures |system.log| + Sent(infos, i, epoch)
         == |old(system.log)| + Sent(infos, if error.None? then i + 1 else i, epoch)
    ensures error.Some? ==>
              && system.log == old(system.log)
              && Running(system.list.records, infos, records, epoch, i, current, removed)
  {
    RunningNext(system.list.records, infos, records, epoch, i, current, removed);
    error, txErr, landed, current', removed' :=
      ProcessOne(infos[i], system, validators, epoch, current, removed);
    SentOneMore(infos, i, epoch);
    if error.None? {
      RunningStep(system.list.records, infos, records, epoch, i, current, removed, current', removed', landed);
    }
  }

  /** The loop over the snapshot; it stops early on an error, after `i` stakes. */
  method ProcessAll(infos: seq<StakeInfo>, system: StakeSystem, validators: set<Pubkey>, epoch: nat)
    returns (error: Option<Error>, countErrors: nat, i: nat, ghost current: seq<StakeRecord>, ghost removed: set<nat>)
    requires system.list.Valid() && IsSnapshot(infos, system.list.records) && system.log == []
    modifies system`log, system.list, system.list.data
    ensures system.list.Valid() && AllHit(system.log) && (countErrors == 0 <==> AllOk(system.log))
    ensures Running(system.list.records, infos, old(system.list.records), epoch, i, current, removed)
    ensures error.None? ==> i == |infos|
    ensures error.None? && AllLanded(system.log) ==> Done(infos, epoch, 0, current, removed)
    ensures error.Some? ==> i < |infos| && error == Problem(infos[i], validators, epoch)
    ensures NoProblem(infos, i, validators, epoch)
    ensures |system.log| == Sent(infos, i, epoch)
  {
    ghost var records := system.list.records;
    RunningStart(infos, records, epoch);
    error, countErrors, i, current, removed := None, 0, 0, records, {};
    while i < |infos|
      invariant i <= |infos| && system.list.Valid() && error.None?
      invariant AllHit(system.log) && (countErrors == 0 <==> AllOk(system.log))
      invariant Running(system.list.records, infos, records, epoch, i, current, removed)
      invariant AllLanded(system.log) ==> Done(infos, epoch, |infos| - i, current, removed)
      invariant NoProblem(infos, i, validators, epoch)
      invariant |system.log| == Sent(infos, i, epoch)
    {
      var txErr;
      ghost var landed, current', removed';
      error, txErr, landed, current', removed' :=
        ProcessNext(infos, i, system, validators, epoch, records, current, removed);
      if error.Some? {
        return;
      }
      current, removed := current', removed';
      countErrors := if txErr then countErrors + 1 else countErrors;
      i := i + 1;
    }
  }

  /** Whatever transactions fail, every one that is sent names the record it was meant for, and the
      list ends up with exactly the records that were not removed. If all transactions land, the spent
      stakes are the ones removed and the others have the records they should have. */
  method Process(infos: seq<StakeInfo>, system: StakeSystem, validators: set<Pubkey>, epoch: nat)
    returns (r: Result<bool, Error>, ghost current: seq<StakeRecord>, ghost removed: set<nat>)
    requires system.list.Valid() && IsSnapshot(infos, system.list.records) && system.log == []
    modifies system`log, system.list, system.list.data
    ensures system.list.Valid() && AllHit(system.log)
    ensures Settled(system.list.records, old(system.list.records), infos, epoch, current, removed)
    ensures r.Ok? && AllLanded(system.log) && NeedsUpdate(infos, epoch) ==> Done(infos, epoch, 0, current, removed)
    ensures r.Ok? && AllLanded(system.log)
            && (forall i :: 0 <= i < |infos| ==> infos[i].record.lastUpdateEpoch <= epoch) ==>
              Done(infos, epoch, 0, current, removed)
    ensures !NeedsUpdate(infos, epoch) ==>
              r == Ok(true) && system.log == [] && system.list.records == old(system.list.records)
    ensures r.Ok? ==> (r.value <==> AllOk(system.log))
    ensures r.Err? ==> exists i :: 0 <= i < |infos| && FirstProblem(infos, i, validators, epoch, r.error)
                         && |system.log| == Sent(infos, i, epoch)
    ensures r.Ok? && NeedsUpdate(infos, epoch) ==>
              NoProblem(infos, |infos|, validators, epoch) && |system.log| == Sent(infos, |infos|, epoch)
    ensures NeedsUpdate(infos, epoch) ==> (r.Ok? <==> AllManageable(infos, validators, epoch))
  {
    ghost var records := system.list.records;
    if !NeedsUpdate(infos, epoch) {
      current, removed := records, {};
      DownFromEnd(records);
      StopHere(records, current, |records|, removed);
      return Ok(true), current, removed;
    }
    var error, countErrors, i;
    error, countErrors, i, current, removed := ProcessAll(infos, system, validators, epoch);
    StopHere(system.list.records, current, |infos| - i, removed);
    ManageableIff(infos, validators, epoch);
    assert error.Some? ==> FirstProblem(infos, i, validators, epoch, error.value);
    r := if error.Some? then Err(error.value) else Ok(countErrors == 0);
  }

  /** What holds of the updated snapshot when the first `i` stakes have been dealt with. */
  ghost predicate InRun(
    infos: seq<StakeInfo>, records: seq<StakeRecord>, epoch: nat, i: nat,
    current: seq<StakeRecord>, removed: set<nat>)
  {
    && i <= |infos| && IsSnapshot(infos, records) && UpdatedFrom(current, records)
    && (forall j :: 0 <= j < |infos| - i ==> current[j] == records[j])
    && OnlySpent(infos, epoch, removed)
  }

  ghost predicate Running(
    list: seq<StakeRecord>, infos: seq<StakeInfo>, records: seq<StakeRecord>, epoch: nat, i: nat,
    current: seq<StakeRecord>, removed: set<nat>)
  {
    InRun(infos, records, epoch, i, current, removed) && DownTo(list, current, |infos| - i, removed)
  }

  lemma RunningStart(infos: seq<StakeInfo>, records: seq<StakeRecord>, epoch: nat)
    requires IsSnapshot(infos, records)
    ensures Running(records, infos, records, epoch, 0, records, {})
    ensures Done(infos, epoch, |infos|, records, {})
  {
    DownFromEnd(records);
  }

  /** What is next on the snapshot is still as it was. */
  lemma RunningNext(
    list: seq<StakeRecord>, infos: seq<StakeInfo>, records: seq<StakeRecord>, epoch: nat, i: nat,
    current: seq<StakeRecord>, removed: set<nat>)
    requires Running(list, infos, records, epoch, i, current, removed) && i < |infos|
    ensures DownTo(list, current, infos[i].index + 1, removed)
    ensures infos[i].index < |current| && current[infos[i].index] == infos[i].record
  {
    assert infos[i].index + 1 == |infos| - i;
  }

  lemma RunningStep(
    list: seq<StakeRecord>, infos: seq<StakeInfo>, records: seq<StakeRecord>, epoch: nat, i: nat,
    current: seq<StakeRecord>, removed: set<nat>,
    current': seq<StakeRecord>, removed': set<nat>, landed: bool)
    requires InRun(infos, records, epoch, i, current, removed) && i < |infos|
    requires Dealt(infos[i], epoch, landed, current, removed, current', removed')
    requires DownTo(list, current', infos[i].index, removed')
    ensures Running(list, infos, records, epoch, i + 1, current', removed')
    ensures landed && Done(infos, epoch, |infos| - i, current, removed) ==>
              Done(infos, epoch, |infos| - (i + 1), current', removed')
  {
    var k := infos[i].index;
    assert k == |infos| - (i + 1) && infos[|infos| - 1 - k] == infos[i];
    if landed && Done(infos, epoch, |infos| - i, current, removed) {
      DoneStep(infos, epoch, k, current, current', removed, removed');
    }
  }

  lemma DoneStep(
    infos: seq<StakeInfo>, epoch: nat, k: nat,
    before: seq<StakeRecord>, current: seq<StakeRecord>, removedBefore: set<nat>, removed: set<nat>)
    requires k < |infos| == |current| && Done(infos, epoch, k + 1, before, removedBefore)
    requires forall j :: 0 <= j < |current| && j != k ==> current[j] == before[j]
    requires removed == removedBefore || removed == removedBefore + {k}
    requires var info := infos[|infos| - 1 - k];
             current[k] == Wanted(info, epoch) && (k in removed <==> IsSpent(info, epoch))
    ensures Done(infos, epoch, k, current, removed)
  {
  }

  lemma StopHere(list: seq<StakeRecord>, current: seq<StakeRecord>, k: nat, removed: set<nat>)
    requires DownTo(list, current, k, removed)
    ensures multiset(list) == Survivors(current, 0, removed)
  {
    PassOverTo(list, current, k, 0, removed);
    DownToStart(list, current, removed);
  }
}
