/** Removing validators from the validator list: the entries to remove are picked from a snapshot and
    sent last index first, several in one transaction. */
module RemoveValidators {
  import opened Collections
  import opened StakeTypes
  import opened SwapRemoveList

  datatype ValidatorRecord = ValidatorRecord(validatorAccount: Pubkey, activeBalance: nat)

  datatype Removal = Removal(index: nat, vote: Pubkey)

  datatype Error = InvalidAuthority | TransactionFailed

  // ---------- On chain ----------

  /** A transaction with several removals; if one of them is refused, none is made. */
  function Execute(records: seq<ValidatorRecord>, batch: seq<Removal>): Option<seq<ValidatorRecord>>
    decreases |batch|
  {
    if batch == [] then Some(records)
    else if Removable(records, batch[0]) then Execute(SwapRemove(records, batch[0].index), batch[1..])
    else None
  }

  predicate Removable(records: seq<ValidatorRecord>, removal: Removal) {
    && removal.index < |records|
    && records[removal.index] == ValidatorRecord(removal.vote, 0)
  }

  class ValidatorSystem {
    const list: RecordList<ValidatorRecord>
    ghost var log: seq<Attempt>

    constructor (list: RecordList<ValidatorRecord>)
      ensures this.list == list && log == []
    {
      this.list := list;
      log := [];
    }

    /** A hit is a transaction in which every index names the validator meant. */
    method Send(batch: seq<Removal>) returns (ghost a: Attempt, ok: bool)
      requires list.Valid()
      modifies this`log, list, list.data
      ensures list.Valid() && log == old(log) + [a] && a.ok == ok
      ensures a.hit == Execute(old(list.records), batch).Some?
      ensures a.landed ==> a.hit
      ensures list.records == if a.landed then Execute(old(list.records), batch).value else old(list.records)
    {
      ok := *;
      var fails: bool := *;
      var outcome := Execute(list.data[..list.count], batch);
      a := Attempt(outcome.Some?, !fails && outcome.Some?, ok);
      log := log + [a];
      if !fails && outcome.Some? {
        for i := 0 to |batch|
          invariant list.Valid() && log == old(log) + [a]
          invariant Execute(list.records, batch[i..]) == outcome
        {
          assert batch[i..][0] == batch[i] && batch[i..][1..] == batch[i + 1..];
          var removed := list.Remove(batch[i].index);
        }
      }
    }
  }

  // ---------- The selection ----------

  /** Without named validators, every validator without balance is to go. Otherwise a name stands for
      the last record with that account, and that record goes if it has no balance. */
  ghost predicate Selected(records: seq<ValidatorRecord>, votes: seq<Pubkey>, i: nat) {
    && i < |records| && records[i].activeBalance == 0
    && (votes == [] || (records[i].validatorAccount in votes && IsLast(records, i)))
  }

  ghost predicate IsLast(records: seq<ValidatorRecord>, i: nat)
    requires i < |records|
  {
    forall j :: i < j < |records| ==> records[j].validatorAccount != records[i].validatorAccount
  }

  ghost predicate Unseen(records: seq<ValidatorRecord>, k: nat, vote: Pubkey) {
    forall j :: k <= j < |records| ==> records[j].validatorAccount != vote
  }

  ghost predicate Descending(removals: seq<Removal>) {
    forall i, j :: 0 <= i < j < |removals| ==> removals[j].index < removals[i].index
  }

  ghost predicate FromSnapshot(removals: seq<Removal>, records: seq<ValidatorRecord>) {
    forall i :: 0 <= i < |removals| ==> Removable(records, removals[i])
  }

  ghost function Indices(removals: seq<Removal>, i: nat, j: nat): set<nat>
    requires i <= j <= |removals|
  {
    set m | i <= m < j :: removals[m].index
  }

  lemma IndicesOfAppend(removals: seq<Removal>, removal: Removal)
    ensures Indices(removals + [removal], 0, |removals| + 1) == Indices(removals, 0, |removals|) + {removal.index}
  {
    var longer := removals + [removal];
    forall m | 0 <= m < |removals|
      ensures longer[m].index in Indices(longer, 0, |longer|)
    {
      assert longer[m] == removals[m];
    }
    assert longer[|removals|] == removal;
    assert forall m :: 0 <= m < |removals| ==> removals[m] == longer[m];
  }

  /** The filter is reversed, so it is evaluated from the last record to the first; a name is used up
      by the first record found for it. */
  method Select(records: seq<ValidatorRecord>, votes: seq<Pubkey>)
    returns (chosen: seq<Removal>, unknown: set<Pubkey>)
    ensures Descending(chosen) && FromSnapshot(chosen, records)
    ensures forall i: nat :: i in Indices(chosen, 0, |chosen|) <==> Selected(records, votes, i)
    ensures forall vote :: vote in unknown <==> vote in votes && Unseen(records, 0, vote)
  {
    chosen := [];
    unknown := set vote | vote in votes;
    assert forall vote :: vote in unknown <==> vote in votes;
    var i: nat := |records|;
    while i > 0
      invariant i <= |records|
      invariant Descending(chosen) && FromSnapshot(chosen, records)
      invariant forall m :: 0 <= m < |chosen| ==> i <= chosen[m].index
      invariant forall j: nat :: j in Indices(chosen, 0, |chosen|) <==> i <= j && Selected(records, votes, j)
      invariant forall vote :: vote in unknown <==> vote in votes && Unseen(records, i, vote)
    {
      i := i - 1;
      var ValidatorRecord(account, balance) := records[i];
      var named := votes == [] || account in unknown;
      unknown := unknown - {account};
      if named && balance == 0 {
        IndicesOfAppend(chosen, Removal(i, account));
        chosen := chosen + [Removal(i, account)];
      }
    }
  }

  // ---------- The removal ----------

  /** A batch that continues a downward run hits what it means to remove. */
  lemma {:induction false} BatchHits(
    list: seq<ValidatorRecord>, records: seq<ValidatorRecord>, k: nat, removed: set<nat>,
    chosen: seq<Removal>, i: nat, j: nat)
    requires DownTo(list, records, k, removed)
    requires Descending(chosen) && FromSnapshot(chosen, records)
    requires i < j <= |chosen| && chosen[i].index < k
    ensures Execute(list, chosen[i..j]).Some?
    ensures DownTo(Execute(list, chosen[i..j]).value, records, chosen[j - 1].index, removed + Indices(chosen, i, j))
    decreases j - i
  {
    var index := chosen[i].index;
    PassOverTo(list, records, k, index + 1, removed);
    RemoveBelow(list, records, index + 1, removed);
    assert chosen[i..j][0] == chosen[i] && chosen[i..j][1..] == chosen[i + 1..j];
    assert removed + Indices(chosen, i, j) == removed + {index} + Indices(chosen, i + 1, j);
    if i + 1 == j {
      assert removed + {index} + Indices(chosen, i + 1, j) == removed + {index};
    } else {
      BatchHits(SwapRemove(list, index), records, index, removed + {index}, chosen, i + 1, j);
    }
  }

  /** What a run has left when `sent` removals have been sent, down to index `k`. */
  ghost predicate Sent(
    list: seq<ValidatorRecord>, records: seq<ValidatorRecord>, chosen: seq<Removal>, sent: nat, k: nat,
    removed: set<nat>)
  {
    && sent <= |chosen|
    && DownTo(list, records, k, removed) && (sent < |chosen| ==> chosen[sent].index < k)
    && removed <= Indices(chosen, 0, sent)
  }

  /** One transaction, with the removals up to `next`; it may fail or not land. */
  method SendBatch(
    chosen: seq<Removal>, sent: nat, next: nat, system: ValidatorSystem,
    ghost records: seq<ValidatorRecord>, ghost k: nat, ghost removed: set<nat>)
    returns (ghost a: Attempt, ok: bool, ghost removed': set<nat>)
    requires system.list.Valid() && Descending(chosen) && FromSnapshot(chosen, records) && sent < next <= |chosen|
    requires Sent(system.list.records, records, chosen, sent, k, removed)
    modifies system`log, system.list, system.list.data
    ensures system.list.Valid() && system.log == old(system.log) + [a] && a.hit && a.ok == ok
    ensures Sent(system.list.records, records, chosen, next, chosen[next - 1].index, removed')
    ensures a.landed && removed == Indices(chosen, 0, sent) ==> removed' == Indices(chosen, 0, next)
  {
    BatchHits(system.list.records, records, k, removed, chosen, sent, next);
    PassOverTo(system.list.records, records, k, chosen[next - 1].index, removed);
    assert Indices(chosen, 0, next) == Indices(chosen, 0, sent) + Indices(chosen, sent, next);
    a, ok := system.Send(chosen[sent..next]);
    removed' := removed;
    if a.landed {
      removed' := removed + Indices(chosen, sent, next);
    }
  }

  /** Sends the removals, as many in one transaction as fit, until the client is told of a failure. */
  method SendAll(chosen: seq<Removal>, system: ValidatorSystem)
    returns (ok: bool, ghost k: nat, ghost sent: nat, ghost removed: set<nat>)
    requires system.list.Valid() && Descending(chosen) && FromSnapshot(chosen, system.list.records) && system.log == []
    modifies system`log, system.list, system.list.data
    ensures system.list.Valid() && AllHit(system.log)
    ensures Sent(system.list.records, old(system.list.records), chosen, sent, k, removed)
    ensures ok <==> AllOk(system.log)
    ensures ok ==> sent == |chosen|
    ensures AllLanded(system.log) ==> removed == Indices(chosen, 0, sent)
  {
    ghost var records := system.list.records;
    DownFromEnd(records);
    var next := 0;
    ok, k, sent, removed := true, |records|, 0, {};
    while next < |chosen|
      invariant next == sent <= |chosen| && ok && system.list.Valid()
      invariant AllHit(system.log) && AllOk(system.log)
      invariant Sent(system.list.records, records, chosen, sent, k, removed)
      invariant AllLanded(system.log) ==> removed == Indices(chosen, 0, sent)
      decreases |chosen| - next
    {
      var size: nat :| 0 < size <= |chosen| - next;
      ghost var log := system.log;
      ghost var a;
      a, ok, removed := SendBatch(chosen, next, next + size, system, records, k, removed);
      LogOneMore(log, a);
      next := next + size;
      sent, k := next, chosen[next - 1].index;
      if !ok {
        return;
      }
    }
  }

  lemma Finish(
    list: seq<ValidatorRecord>, records: seq<ValidatorRecord>, chosen: seq<Removal>, sent: nat, k: nat,
    removed: set<nat>)
    requires Sent(list, records, chosen, sent, k, removed)
    ensures multiset(list) == Survivors(records, 0, removed)
    ensures removed <= Indices(chosen, 0, |chosen|)
  {
    PassOverTo(list, records, k, 0, removed);
    DownToStart(list, records, removed);
  }

  /** Whatever transactions fail, none names a wrong validator, only selected validators are removed,
      and the list keeps all the others; if all land, the selected ones are the ones removed. */
  method Process(votes: seq<Pubkey>, authorized: bool, system: ValidatorSystem)
    returns (r: Result<set<Pubkey>, Error>, ghost removed: set<nat>)
    requires system.list.Valid() && system.log == []
    modifies system`log, system.list, system.list.data
    ensures system.list.Valid() && AllHit(system.log)
    ensures multiset(system.list.records) == Survivors(old(system.list.records), 0, removed)
    ensures forall i :: i in removed ==> Selected(old(system.list.records), votes, i)
    ensures r.Ok? && AllLanded(system.log) ==> forall i: nat ::
              Selected(old(system.list.records), votes, i) ==> i in removed
    ensures r.Ok? ==> forall vote :: vote in r.value <==> vote in votes && Unseen(old(system.list.records), 0, vote)
    ensures r == Err(InvalidAuthority) <==> !authorized && exists i: nat :: Selected(old(system.list.records), votes, i)
    ensures r == Err(InvalidAuthority) ==> system.log == []
    ensures r == Err(TransactionFailed) <==> !AllOk(system.log)
  {
    ghost var records := system.list.records;
    var chosen, unknown := Select(system.list.data[..system.list.count], votes);
    removed := {};
    NoneChosen(chosen, records, votes);
    if chosen != [] && !authorized {
      DownFromEnd(records);
      Finish(records, records, chosen, 0, |records|, removed);
      return Err(InvalidAuthority), removed;
    }
    ghost var k, sent;
    var ok;
    ok, k, sent, removed := SendAll(chosen, system);
    Finish(system.list.records, records, chosen, sent, k, removed);
    r := if ok then Ok(unknown) else Err(TransactionFailed);
  }

  lemma NoneChosen(chosen: seq<Removal>, records: seq<ValidatorRecord>, votes: seq<Pubkey>)
    requires forall i: nat :: i in Indices(chosen, 0, |chosen|) <==> Selected(records, votes, i)
    ensures chosen == [] <==> !exists i: nat :: Selected(records, votes, i)
  {
    if chosen != [] {
      assert chosen[0].index in Indices(chosen, 0, |chosen|);
    }
  }
}
