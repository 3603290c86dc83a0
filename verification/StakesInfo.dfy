/** The client's snapshot of the on-chain stake list (rpc_marinade.rs): each record joined with the
    stake account it names, fetched in batches. */
module StakesInfo {
  import opened Collections
  import opened StakeTypes

  datatype StakeRecord = StakeRecord(stakeAccount: Pubkey, lastUpdateDelegated: nat, lastUpdateEpoch: nat)

  /** A delegation, with the part of it that is effective, activating and deactivating this epoch. */
  datatype Delegation = Delegation(
    voter: Pubkey, stake: nat, deactivating: bool, creditsObserved: nat,
    effective: nat, activatingStake: nat, deactivatingStake: nat)

  /** The data of a stake account: `None` if it cannot be parsed, and no delegation if undelegated. */
  datatype Account = Account(lamports: nat, data: Option<Option<Delegation>>)

  datatype StakeInfo = StakeInfo(index: nat, record: StakeRecord, delegation: Option<Delegation>, balance: nat)

  datatype Error = CannotFind(account: Pubkey) | CannotParse(account: Pubkey)

  /** The simple form: one record joined with its account. */
  function InfoOf(ledger: map<Pubkey, Account>, record: StakeRecord, index: nat): Result<StakeInfo, Error> {
    if record.stakeAccount !in ledger then Err(CannotFind(record.stakeAccount))
    else
      var account := ledger[record.stakeAccount];
      if account.data == None then Err(CannotParse(record.stakeAccount))
      else Ok(StakeInfo(index, record, account.data.value, account.lamports))
  }

  const BATCH_SIZE: nat := 100

  /** The RPC takes at most 100 accounts. */
  method GetMultipleAccounts(ledger: map<Pubkey, Account>, keys: seq<Pubkey>) returns (accounts: seq<Option<Account>>)
    requires |keys| <= BATCH_SIZE
    ensures |accounts| == |keys|
    ensures forall i :: 0 <= i < |keys| ==> accounts[i] == if keys[i] in ledger then Some(ledger[keys[i]]) else None
  {
    accounts := seq(|keys|, i requires 0 <= i < |keys| => if keys[i] in ledger then Some(ledger[keys[i]]) else None);
  }

  /** The infos of the first records, all found and parsed. */
  ghost predicate Joined(ledger: map<Pubkey, Account>, records: seq<StakeRecord>, infos: seq<StakeInfo>) {
    && |infos| <= |records|
    && forall i :: 0 <= i < |infos| ==> InfoOf(ledger, records[i], i) == Ok(infos[i])
  }

  /** The account named by the record is there and can be parsed. */
  predicate IsReadable(ledger: map<Pubkey, Account>, record: StakeRecord) {
    record.stakeAccount in ledger && ledger[record.stakeAccount].data.Some?
  }

  predicate IsInfo(ledger: map<Pubkey, Account>, record: StakeRecord, index: nat, info: StakeInfo) {
    && IsReadable(ledger, record) && info.index == index && info.record == record
    && info.delegation == ledger[record.stakeAccount].data.value
    && info.balance == ledger[record.stakeAccount].lamports
  }

  /** Fetches batch after batch. The result is the record-by-record join, entry `i` carrying index `i`
      and record `i`; the first record without a readable account is the error. */
  method StakesInfo(records: seq<StakeRecord>, ledger: map<Pubkey, Account>) returns (r: Result<seq<StakeInfo>, Error>)
    ensures r.Ok? ==> |r.value| == |records| && Joined(ledger, records, r.value)
    ensures r.Ok? ==> forall i :: 0 <= i < |records| ==> IsInfo(ledger, records[i], i, r.value[i])
    ensures r.Err? ==> exists i :: 0 <= i < |records| && InfoOf(ledger, records[i], i) == Err(r.error)
                         && forall j :: 0 <= j < i ==> InfoOf(ledger, records[j], j).Ok?
    ensures r.Err? ==> exists i :: 0 <= i < |records| && records[i].stakeAccount == r.error.account
                         && !IsReadable(ledger, records[i]) && forall j :: 0 <= j < i ==> IsReadable(ledger, records[j])
  {
    var resultVec: seq<StakeInfo> := [];
    var processed := 0;
    while processed < |records|
      invariant Joined(ledger, records, resultVec)
      invariant |resultVec| == if processed < |records| then processed else |records|
      decreases |records| - processed
    {
      var take := if |records| - processed < BATCH_SIZE then |records| - processed else BATCH_SIZE;
      var keys := seq(take, i requires 0 <= i < take => records[processed + i].stakeAccount);
      var accounts := GetMultipleAccounts(ledger, keys);
      for index := 0 to |accounts|
        invariant Joined(ledger, records, resultVec)
        invariant |resultVec| == processed + index
      {
        var record := records[processed + index];
        assert accounts[index] == if record.stakeAccount in ledger then Some(ledger[record.stakeAccount]) else None;
        match accounts[index] {
          case None => return Err(CannotFind(record.stakeAccount));
          case Some(account) =>
            match account.data {
              case None => return Err(CannotParse(record.stakeAccount));
              case Some(delegation) =>
                resultVec := resultVec + [StakeInfo(processed + index, record, delegation, account.lamports)];
            }
        }
      }
      processed := processed + BATCH_SIZE;
    }
    r := Ok(resultVec);
  }

  function Reverse<T>(s: seq<T>): (r: seq<T>)
    ensures |r| == |s|
    ensures forall i :: 0 <= i < |s| ==> r[i] == s[|s| - 1 - i]
  {
    if s == [] then [] else Reverse(s[1..]) + [s[0]]
  }

  /** Last index first, so that records can be removed from the list while the snapshot is used. */
  method StakesInfoReversed(records: seq<StakeRecord>, ledger: map<Pubkey, Account>)
    returns (r: Result<seq<StakeInfo>, Error>)
    ensures r.Ok? ==> |r.value| == |records| && Joined(ledger, records, Reverse(r.value))
    ensures r.Ok? ==> forall i :: 0 <= i < |records| ==>
                        r.value[i].index == |records| - 1 - i && r.value[i].record == records[|records| - 1 - i]
    ensures r.Err? ==> exists i :: 0 <= i < |records| && InfoOf(ledger, records[i], i) == Err(r.error)
  {
    r := StakesInfo(records, ledger);
    if r.Ok? {
      ghost var forwards := r.value;
      r := Ok(Reverse(r.value));
      assert Reverse(r.value) == forwards;
    }
  }
}
