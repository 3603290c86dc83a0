/** Sending transactions until each is confirmed or has failed (rpc_client_utils.rs): when the
    blockhash that they are signed with expires, those still pending are signed and sent again. */
module SendAndConfirm {
  import opened Arithmetic
  import opened Collections

  /** `id` stands for the message, which is what makes a transaction distinct. */
  datatype Transaction = Transaction(id: nat, fee: nat)

  /** The signature of a message for a blockhash; all unsigned transactions carry the same default. */
  datatype Signature = Unsigned | Signature(id: nat, blockhash: nat)

  datatype Pending = Pending(id: nat, signature: Signature)

  /** Whether a status satisfies the commitment, and whether the transaction went well. */
  datatype Status = Status(committed: bool, ok: bool)

  /** What the network answers in one pass of the loop, for any blockhash, signature and chunk that it
      may be asked about; `None` stands for a failed query. */
  datatype Round = Round(
    expired: nat -> Option<bool>, blockhash: Option<nat>, status: Signature -> Option<Status>, queryFails: nat -> bool)

  /** What it answers before the loop. */
  datatype Opening = Opening(balance: Option<nat>, blockhash: Option<nat>, simulationFails: nat -> bool)

  datatype Error = RpcError | InsufficientFunds | TooManyExpiredBlockhashes

  /** `Waiting` is a run looked at before it is over. */
  datatype Outcome = Confirmed | Failed(error: Error) | Waiting

  const MAX_EXPIRED_BLOCKHASHES: nat := 5
  const MAX_QUERY_ITEMS: nat := 256

  // ---------- The protocol ----------

  datatype State = State(
    pending: seq<Pending>, succeeded: set<Signature>, failed: set<Signature>, blockhash: nat, retries: nat,
    sent: seq<Signature>)

  function Sign(ids: seq<nat>, blockhash: nat): (r: seq<Pending>)
    ensures |r| == |ids|
    ensures forall i :: 0 <= i < |ids| ==> r[i] == Pending(ids[i], Signature(ids[i], blockhash))
  {
    if ids == [] then []
    else Sign(ids[..|ids| - 1], blockhash) + [Pending(ids[|ids| - 1], Signature(ids[|ids| - 1], blockhash))]
  }

  function Ids(pending: seq<Pending>): (r: seq<nat>)
    ensures |r| == |pending| && forall i :: 0 <= i < |r| ==> r[i] == pending[i].id
  {
    seq(|pending|, i requires 0 <= i < |pending| => pending[i].id)
  }

  function Signatures(pending: seq<Pending>): (r: seq<Signature>)
    ensures |r| == |pending| && forall i :: 0 <= i < |r| ==> r[i] == pending[i].signature
  {
    seq(|pending|, i requires 0 <= i < |pending| => pending[i].signature)
  }

  /** All pending transactions signed anew and sent again. */
  function Resend(s: State, retries: nat, blockhash: nat): State {
    var pending := Sign(Ids(s.pending), blockhash);
    State(pending, s.succeeded, s.failed, blockhash, retries, s.sent + Signatures(pending))
  }

  function Completed(status: Option<Status>, dryRun: bool): Option<bool> {
    if dryRun then Some(true)
    else if status.Some? && status.value.committed then Some(status.value.ok)
    else None
  }

  /** One pending transaction and its status. */
  function SettleOne(s: State, p: Pending, status: Option<Status>, dryRun: bool): State {
    match Completed(status, dryRun)
    case Some(true) => s.(succeeded := s.succeeded + {p.signature})
    case Some(false) => s.(failed := s.failed + {p.signature})
    case None => s.(pending := s.pending + [p])
  }

  function Settle(s: State, all: seq<Pending>, status: Signature -> Option<Status>, dryRun: bool): State
    decreases |all|
  {
    if all == [] then s
    else Settle(SettleOne(s, all[0], status(all[0].signature), dryRun), all[1..], status, dryRun)
  }

  /** Statuses are asked for in chunks, one item short of the maximum. */
  predicate QueryFails(n: nat, round: Round) {
    exists k: nat | k < n :: k * (MAX_QUERY_ITEMS - 1) < n && round.queryFails(k)
  }

  function Query(s: State, round: Round, dryRun: bool): (State, Option<Error>) {
    if QueryFails(|s.pending|, round) then (s, Some(RpcError))
    else (Settle(s.(pending := []), s.pending, round.status, dryRun), None)
  }

  function Pass(s: State, round: Round, dryRun: bool): (State, Option<Error>) {
    var expired := round.expired(s.blockhash);
    if expired.None? then (s, Some(RpcError))
    else if expired.value && !dryRun then
      var retries := SaturatingSub(s.retries, 1);
      if retries == 0 then (s, Some(TooManyExpiredBlockhashes))
      else if round.blockhash.None? then (s, Some(RpcError))
      else Query(Resend(s, retries, round.blockhash.value), round, dryRun)
    else Query(s, round, dryRun)
  }

  function Run(s: State, rounds: seq<Round>, dryRun: bool): (State, Outcome)
    decreases |rounds|
  {
    if s.pending == [] then (s, Confirmed)
    else if rounds == [] then (s, Waiting)
    else
      var (s', error) := Pass(s, rounds[0], dryRun);
      if error.Some? then (s', Failed(error.value)) else Run(s', rounds[1..], dryRun)
  }

  function FeeOf(transaction: Transaction): nat {
    transaction.fee
  }

  function RequiredFee(transactions: seq<Transaction>): nat {
    SumBy(transactions, FeeOf)
  }

  function TransactionIds(transactions: seq<Transaction>): (r: seq<nat>)
    ensures |r| == |transactions| && forall i :: 0 <= i < |r| ==> r[i] == transactions[i].id
  {
    seq(|transactions|, i requires 0 <= i < |transactions| => transactions[i].id)
  }

  /** The first signing and sending. */
  function Opened(ids: seq<nat>, blockhash: nat): State {
    var pending := Sign(ids, blockhash);
    State(pending, {}, {}, blockhash, MAX_EXPIRED_BLOCKHASHES, Signatures(pending))
  }

  /** In a dry run nothing is signed or sent. */
  function Simulated(ids: seq<nat>, blockhash: nat): State {
    State(LeaveUnsigned(ids), {}, {}, blockhash, MAX_EXPIRED_BLOCKHASHES, [])
  }

  function LeaveUnsigned(ids: seq<nat>): (r: seq<Pending>)
    ensures |r| == |ids| && forall i :: 0 <= i < |ids| ==> r[i] == Pending(ids[i], Unsigned)
  {
    seq(|ids|, i requires 0 <= i < |ids| => Pending(ids[i], Unsigned))
  }

  predicate SimulationFails(ids: seq<nat>, opening: Opening) {
    exists i | 0 <= i < |ids| :: opening.simulationFails(ids[i])
  }

  const NOTHING := State([], {}, {}, 0, MAX_EXPIRED_BLOCKHASHES, [])

  function SendAll(
    transactions: seq<Transaction>, opening: Opening, rounds: seq<Round>, dryRun: bool): (State, Outcome)
  {
    var ids := TransactionIds(transactions);
    if opening.balance.None? || opening.blockhash.None? then (NOTHING, Failed(RpcError))
    else if RequiredFee(transactions) > opening.balance.value then (NOTHING, Failed(InsufficientFunds))
    else if dryRun then
      if SimulationFails(ids, opening) then (NOTHING, Failed(RpcError))
      else Run(Simulated(ids, opening.blockhash.value), rounds, true)
    else Run(Opened(ids, opening.blockhash.value), rounds, false)
  }

  // ---------- The code ----------

  /** The network answers the queries of the current round and logs what is sent. */
  class Network {
    const opening: Opening
    const rounds: seq<Round>
    var round: nat
    var sent: seq<Signature>

    constructor (opening: Opening, rounds: seq<Round>)
      ensures this.opening == opening && this.rounds == rounds && round == 0 && sent == []
    {
      this.opening, this.rounds, round, sent := opening, rounds, 0, [];
    }

    method Send(signature: Signature)
      modifies this`sent
      ensures sent == old(sent) + [signature]
    {
      sent := sent + [signature];
    }

    method Advance()
      modifies this`round
      ensures round == old(round) + 1
    {
      round := round + 1;
    }

    method SignatureStatuses(chunk: seq<Signature>, k: nat) returns (r: Option<seq<Option<Status>>>)
      requires |chunk| <= MAX_QUERY_ITEMS && round < |rounds|
      ensures r.None? <==> rounds[round].queryFails(k)
      ensures r.Some? ==>
                && |r.value| == |chunk|
                && forall i :: 0 <= i < |chunk| ==> r.value[i] == rounds[round].status(chunk[i])
    {
      var now := rounds[round];
      r := if now.queryFails(k) then None
           else Some(seq(|chunk|, i requires 0 <= i < |chunk| => now.status(chunk[i])));
    }
  }

  method SignAndSend(ids: seq<nat>, blockhash: nat, network: Network) returns (pending: seq<Pending>)
    modifies network`sent
    ensures pending == Sign(ids, blockhash)
    ensures network.sent == old(network.sent) + Signatures(pending)
  {
    pending := [];
    for i := 0 to |ids|
      invariant pending == Sign(ids[..i], blockhash)
      invariant network.sent == old(network.sent) + Signatures(pending)
    {
      assert ids[..i + 1][..i] == ids[..i];
      var p := Pending(ids[i], Signature(ids[i], blockhash));
      network.Send(p.signature);
      pending := pending + [p];
    }
    assert ids[..|ids|] == ids;
  }

  lemma ChunkFails(n: nat, k: nat, round: Round)
    requires k * (MAX_QUERY_ITEMS - 1) < n && round.queryFails(k)
    ensures QueryFails(n, round)
  {
    assert k <= k * (MAX_QUERY_ITEMS - 1);
  }

  /** Chunk by chunk, the statuses of all. */
  method QueryStatuses(pending: seq<Pending>, network: Network) returns (r: Option<seq<Option<Status>>>)
    requires network.round < |network.rounds|
    ensures var now := network.rounds[network.round];
            && (r.None? <==> QueryFails(|pending|, now))
            && (r.Some? ==> |r.value| == |pending|
                            && forall i :: 0 <= i < |pending| ==> r.value[i] == now.status(pending[i].signature))
  {
    var signatures := Signatures(pending);
    ghost var now := network.rounds[network.round];
    var statuses: seq<Option<Status>> := [];
    var k: nat := 0;
    while |statuses| < |signatures|
      invariant |statuses| == if k * (MAX_QUERY_ITEMS - 1) < |pending| then k * (MAX_QUERY_ITEMS - 1) else |pending|
      invariant |statuses| <= |pending|
      invariant forall i :: 0 <= i < |statuses| ==> statuses[i] == now.status(pending[i].signature)
      invariant forall j: nat :: j < k ==> !now.queryFails(j)
      decreases |signatures| - |statuses|
    {
      var start := |statuses|;
      var end := if |signatures| - start < MAX_QUERY_ITEMS - 1 then |signatures| else start + MAX_QUERY_ITEMS - 1;
      var answer := network.SignatureStatuses(signatures[start..end], k);
      if answer.None? {
        ChunkFails(|pending|, k, now);
        return None;
      }
      statuses := statuses + answer.value;
      k := k + 1;
    }
    NoChunkFails(|pending|, k, now);
    r := Some(statuses);
  }

  lemma NoChunkFails(n: nat, k: nat, round: Round)
    requires n <= k * (MAX_QUERY_ITEMS - 1)
    requires forall j: nat :: j < k ==> !round.queryFails(j)
    ensures !QueryFails(n, round)
  {
    forall j: nat | j < n && j * (MAX_QUERY_ITEMS - 1) < n
      ensures !round.queryFails(j)
    {
      assert j < k;
    }
  }

  method AddFees(transactions: seq<Transaction>) returns (fee: nat)
    ensures fee == RequiredFee(transactions)
  {
    fee := 0;
    for i := 0 to |transactions|
      invariant fee == RequiredFee(transactions[..i])
    {
      assert transactions[..i + 1][..i] == transactions[..i];
      fee := fee + transactions[i].fee;
    }
    assert transactions[..|transactions|] == transactions;
  }

  method Simulate(ids: seq<nat>, opening: Opening) returns (pending: Option<seq<Pending>>)
    ensures pending == if SimulationFails(ids, opening) then None else Some(LeaveUnsigned(ids))
  {
    var unsigned: seq<Pending> := [];
    for i := 0 to |ids|
      invariant |unsigned| == i && forall j :: 0 <= j < i ==> unsigned[j] == Pending(ids[j], Unsigned)
      invariant forall j :: 0 <= j < i ==> !opening.simulationFails(ids[j])
    {
      if opening.simulationFails(ids[i]) {
        return None;
      }
      unsigned := unsigned + [Pending(ids[i], Unsigned)];
    }
    assert unsigned == LeaveUnsigned(ids);
    pending := Some(unsigned);
  }

  method SendAndConfirmTransactions(network: Network, dryRun: bool, transactions: seq<Transaction>)
    returns (outcome: Outcome, pending: seq<Pending>, succeeded: set<Signature>, failed: set<Signature>)
    requires network.round == 0 && network.sent == []
    modifies network
    ensures var (s, o) := SendAll(transactions, network.opening, network.rounds, dryRun);
            && outcome == o && network.sent == s.sent
            && pending == s.pending && succeeded == s.succeeded && failed == s.failed
  {
    pending, succeeded, failed := [], {}, {};
    if network.opening.balance.None? || network.opening.blockhash.None? {
      return Failed(RpcError), pending, succeeded, failed;
    }
    var requiredFee := AddFees(transactions);
    if requiredFee > network.opening.balance.value {
      return Failed(InsufficientFunds), pending, succeeded, failed;
    }
    var ids := TransactionIds(transactions);
    if dryRun {
      var simulated := Simulate(ids, network.opening);
      if simulated.None? {
        return Failed(RpcError), pending, succeeded, failed;
      }
      pending := simulated.value;
    } else {
      pending := SignAndSend(ids, network.opening.blockhash.value, network);
      assert network.sent == Signatures(pending);
    }
    outcome, pending, succeeded, failed := Confirm(network, dryRun, pending, network.opening.blockhash.value);
  }

  /** The loop. */
  method Confirm(network: Network, dryRun: bool, submitted: seq<Pending>, firstBlockhash: nat)
    returns (outcome: Outcome, pending: seq<Pending>, succeeded: set<Signature>, failed: set<Signature>)
    requires network.round == 0
    modifies network
    ensures var start := State(submitted, {}, {}, firstBlockhash, MAX_EXPIRED_BLOCKHASHES, old(network.sent));
            var (s, o) := Run(start, network.rounds, dryRun);
            && outcome == o && network.sent == s.sent
            && pending == s.pending && succeeded == s.succeeded && failed == s.failed
  {
    var retries: nat, blockhash := MAX_EXPIRED_BLOCKHASHES, firstBlockhash;
    outcome, pending, succeeded, failed := Waiting, submitted, {}, {};
    ghost var start := State(pending, succeeded, failed, blockhash, retries, network.sent);
    while network.round < |network.rounds|
      invariant network.round <= |network.rounds|
      invariant Run(State(pending, succeeded, failed, blockhash, retries, network.sent),
                  network.rounds[network.round..], dryRun)
             == Run(start, network.rounds, dryRun)
      decreases |network.rounds| - network.round
    {
      if pending == [] {
        return Confirmed, pending, succeeded, failed;
      }
      ghost var s := State(pending, succeeded, failed, blockhash, retries, network.sent);
      var now := network.rounds[network.round];
      assert network.rounds[network.round..][0] == now;
      assert network.rounds[network.round..][1..] == network.rounds[network.round + 1..];
      var expired := now.expired(blockhash);
      if expired.None? {
        return Failed(RpcError), pending, succeeded, failed;
      }
      if expired.value && !dryRun {
        if SaturatingSub(retries, 1) == 0 {
          return Failed(TooManyExpiredBlockhashes), pending, succeeded, failed;
        }
        if now.blockhash.None? {
          return Failed(RpcError), pending, succeeded, failed;
        }
        retries := SaturatingSub(retries, 1);
        blockhash := now.blockhash.value;
        pending := SignAndSend(Ids(pending), blockhash, network);
        s := State(pending, succeeded, failed, blockhash, retries, network.sent);
      }
      var statuses := QueryStatuses(pending, network);
      if statuses.None? {
        return Failed(RpcError), pending, succeeded, failed;
      }
      pending, succeeded, failed := SettleAll(pending, succeeded, failed, statuses.value, now.status, dryRun, s);
      network.Advance();
    }
    outcome := if pending == [] then Confirmed else Waiting;
  }

  method SettleAll(
    all: seq<Pending>, succeeded0: set<Signature>, failed0: set<Signature>, statuses: seq<Option<Status>>,
    ghost status: Signature -> Option<Status>, dryRun: bool, ghost s: State)
    returns (pending: seq<Pending>, succeeded: set<Signature>, failed: set<Signature>)
    requires |statuses| == |all| && forall i :: 0 <= i < |all| ==> statuses[i] == status(all[i].signature)
    requires s.succeeded == succeeded0 && s.failed == failed0
    ensures Settle(s.(pending := []), all, status, dryRun)
         == State(pending, succeeded, failed, s.blockhash, s.retries, s.sent)
  {
    pending, succeeded, failed := [], succeeded0, failed0;
    for i := 0 to |all|
      invariant Settle(State(pending, succeeded, failed, s.blockhash, s.retries, s.sent), all[i..], status, dryRun)
             == Settle(s.(pending := []), all, status, dryRun)
    {
      assert all[i..][0] == all[i] && all[i..][1..] == all[i + 1..];
      match Completed(statuses[i], dryRun) {
        case Some(success) =>
          if success {
            succeeded := succeeded + {all[i].signature};
          } else {
            failed := failed + {all[i].signature};
          }
        case None =>
          pending := pending + [all[i]];
      }
    }
  }

  // ---------- Where each transaction is ----------

  ghost function PendingIds(pending: seq<Pending>): set<nat> {
    set i | 0 <= i < |pending| :: pending[i].id
  }

  ghost function SignedIds(signatures: set<Signature>): set<nat> {
    set s | s in signatures && s.Signature? :: s.id
  }

  /** No transaction is there under two signatures. */
  ghost predicate OneEach(signatures: set<Signature>) {
    forall s, t :: s in signatures && t in signatures ==> s.Signature? && (t.Signature? && s.id == t.id ==> s == t)
  }

  ghost predicate Signed(pending: seq<Pending>) {
    && (forall i, j :: 0 <= i < j < |pending| ==> pending[i].id != pending[j].id)
    && (forall i :: 0 <= i < |pending| ==> pending[i].signature.Signature? && pending[i].signature.id == pending[i].id)
  }

  /** Each transaction is pending, succeeded or failed, and only one of these. */
  ghost predicate Partitioned(ids: set<nat>, pending: seq<Pending>, succeeded: set<Signature>, failed: set<Signature>) {
    && Signed(pending) && OneEach(succeeded) && OneEach(failed)
    && ids == PendingIds(pending) + SignedIds(succeeded) + SignedIds(failed)
    && PendingIds(pending) !! SignedIds(succeeded) && PendingIds(pending) !! SignedIds(failed)
    && SignedIds(succeeded) !! SignedIds(failed)
  }

  lemma OneTaken(pending: seq<Pending>, p: Pending, rest: seq<Pending>)
    requires Signed(pending + [p] + rest)
    ensures Signed(pending + rest)
    ensures PendingIds(pending + [p] + rest) == PendingIds(pending + rest) + {p.id}
    ensures p.id !in PendingIds(pending + rest)
    ensures p.signature.Signature? && p.signature.id == p.id
  {
    var all, left, n := pending + [p] + rest, pending + rest, |pending|;
    assert all[n] == p;
    assert forall i :: 0 <= i < |left| ==> left[i] == all[if i < n then i else i + 1];
    forall i | 0 <= i < |all| && i != n
      ensures all[i].id in PendingIds(left)
    {
      assert all[i] == left[if i < n then i else i - 1];
    }
  }

  lemma OneMoreSigned(signatures: set<Signature>, id: nat, blockhash: nat)
    requires OneEach(signatures) && id !in SignedIds(signatures)
    ensures OneEach(signatures + {Signature(id, blockhash)})
    ensures SignedIds(signatures + {Signature(id, blockhash)}) == SignedIds(signatures) + {id}
  {
    forall s | s in signatures && s.Signature?
      ensures s.id in SignedIds(signatures)
    {
    }
    assert Signature(id, blockhash) in signatures + {Signature(id, blockhash)};
  }

  lemma {:induction false} SettleKeepsPartition(
    ids: set<nat>, s: State, all: seq<Pending>, status: Signature -> Option<Status>)
    requires Partitioned(ids, s.pending + all, s.succeeded, s.failed)
    ensures var s' := Settle(s, all, status, false);
            Partitioned(ids, s'.pending, s'.succeeded, s'.failed)
    decreases |all|
  {
    if all == [] {
      assert s.pending + all == s.pending;
    } else {
      var p, rest := all[0], all[1..];
      var s' := SettleOne(s, p, status(p.signature), false);
      assert s.pending + all == s.pending + [p] + rest;
      OneTaken(s.pending, p, rest);
      match Completed(status(p.signature), false) {
        case Some(true) => OneMoreSigned(s.succeeded, p.id, p.signature.blockhash);
        case Some(false) => OneMoreSigned(s.failed, p.id, p.signature.blockhash);
        case None => assert s'.pending + rest == s.pending + [p] + rest;
      }
      SettleKeepsPartition(ids, s', rest, status);
    }
  }

  // ---------- How often each transaction is sent ----------

  function TimesSent(sent: seq<Signature>, id: nat): nat {
    if sent == [] then 0
    else TimesSent(sent[..|sent| - 1], id)
         + (if sent[|sent| - 1].Signature? && sent[|sent| - 1].id == id then 1 else 0)
  }

  lemma {:induction false} TimesSentAppend(a: seq<Signature>, b: seq<Signature>, id: nat)
    ensures TimesSent(a + b, id) == TimesSent(a, id) + TimesSent(b, id)
  {
    if b == [] {
      assert a + b == a;
    } else {
      assert (a + b)[..|a + b| - 1] == a + b[..|b| - 1];
      TimesSentAppend(a, b[..|b| - 1], id);
    }
  }

  lemma {:induction false} SignedOnce(pending: seq<Pending>, id: nat)
    requires Signed(pending)
    ensures TimesSent(Signatures(pending), id) == if id in PendingIds(pending) then 1 else 0
  {
    if pending != [] {
      var n := |pending| - 1;
      var rest := pending[..n];
      SignedOnce(rest, id);
      assert Signatures(pending)[..n] == Signatures(rest);
      assert forall i :: 0 <= i < n ==> rest[i] == pending[i];
      assert PendingIds(pending) == PendingIds(rest) + {pending[n].id};
    }
  }

  /** The number of times that everything pending has been sent. */
  function Tries(s: State): int {
    1 + MAX_EXPIRED_BLOCKHASHES - s.retries
  }

  ghost predicate SentAtMost(s: State) {
    && 0 < s.retries <= MAX_EXPIRED_BLOCKHASHES
    && forall id :: TimesSent(s.sent, id) <= Tries(s)
  }

  /** What is pending has been sent on every try, the last time with the current blockhash, and what is
      settled has been sent. */
  ghost predicate Covered(s: State, waiting: seq<Pending>) {
    && (forall i :: 0 <= i < |waiting| ==>
          && waiting[i].signature == Signature(waiting[i].id, s.blockhash)
          && waiting[i].signature in s.sent && TimesSent(s.sent, waiting[i].id) == Tries(s))
    && (forall g :: g in s.succeeded + s.failed ==> g in s.sent)
  }

  ghost predicate Good(ids: set<nat>, s: State) {
    Partitioned(ids, s.pending, s.succeeded, s.failed) && SentAtMost(s) && Covered(s, s.pending)
  }

  lemma {:induction false} SettleKeepsSent(s: State, all: seq<Pending>, status: Signature -> Option<Status>)
    requires Covered(s, s.pending + all)
    ensures var s' := Settle(s, all, status, false);
            s'.sent == s.sent && s'.retries == s.retries && s'.blockhash == s.blockhash && Covered(s', s'.pending)
    decreases |all|
  {
    if all == [] {
      assert s.pending + all == s.pending;
    } else {
      var p, rest := all[0], all[1..];
      var s' := SettleOne(s, p, status(p.signature), false);
      assert (s.pending + all)[|s.pending|] == p;
      forall i | 0 <= i < |s'.pending + rest|
        ensures (s'.pending + rest)[i] in s.pending + all
      {
      }
      SettleKeepsSent(s', rest, status);
    }
  }

  lemma SignProperties(ids: seq<nat>, blockhash: nat)
    requires forall i, j :: 0 <= i < j < |ids| ==> ids[i] != ids[j]
    ensures Signed(Sign(ids, blockhash))
    ensures PendingIds(Sign(ids, blockhash)) == set i | 0 <= i < |ids| :: ids[i]
  {
  }

  lemma ResendKeepsGood(ids: set<nat>, s: State, blockhash: nat)
    requires Good(ids, s) && s.retries > 1
    ensures Good(ids, Resend(s, s.retries - 1, blockhash))
  {
    var s' := Resend(s, s.retries - 1, blockhash);
    SignProperties(Ids(s.pending), blockhash);
    assert PendingIds(s'.pending) == PendingIds(s.pending);
    forall id
      ensures TimesSent(s'.sent, id) <= Tries(s')
    {
      TimesSentAppend(s.sent, Signatures(s'.pending), id);
      SignedOnce(s'.pending, id);
    }
    forall i | 0 <= i < |s'.pending|
      ensures s'.pending[i].signature == Signature(s'.pending[i].id, s'.blockhash)
      ensures s'.pending[i].signature in s'.sent && TimesSent(s'.sent, s'.pending[i].id) == Tries(s')
    {
      assert s'.sent[|s.sent| + i] == s'.pending[i].signature;
      TimesSentAppend(s.sent, Signatures(s'.pending), s.pending[i].id);
      SignedOnce(s'.pending, s.pending[i].id);
    }
  }

  lemma QueryKeepsGood(ids: set<nat>, s: State, round: Round)
    requires Good(ids, s)
    ensures Good(ids, Query(s, round, false).0)
  {
    var empty := s.(pending := []);
    assert [] + s.pending == s.pending;
    SettleKeepsPartition(ids, empty, s.pending, round.status);
    SettleKeepsSent(empty, s.pending, round.status);
  }

  lemma PassKeepsGood(ids: set<nat>, s: State, round: Round)
    requires Good(ids, s)
    ensures Good(ids, Pass(s, round, false).0)
  {
    if round.expired(s.blockhash) == Some(true) && s.retries > 1 && round.blockhash.Some? {
      ResendKeepsGood(ids, s, round.blockhash.value);
      QueryKeepsGood(ids, Resend(s, s.retries - 1, round.blockhash.value), round);
    } else if round.expired(s.blockhash) == Some(false) {
      QueryKeepsGood(ids, s, round);
    }
  }

  lemma {:induction false} RunKeepsGood(ids: set<nat>, s: State, rounds: seq<Round>)
    requires Good(ids, s)
    ensures var (s', outcome) := Run(s, rounds, false);
            && Good(ids, s') && s.sent <= s'.sent && outcome != Failed(InsufficientFunds)
            && (outcome == Confirmed ==> s'.pending == [])
            && (outcome == Failed(TooManyExpiredBlockhashes) ==> s'.pending != [] && s'.retries == 1)
    decreases |rounds|
  {
    if s.pending != [] && rounds != [] {
      PassAsPromised(s, rounds[0]);
      PassKeepsGood(ids, s, rounds[0]);
      RunKeepsGood(ids, Pass(s, rounds[0], false).0, rounds[1..]);
    }
  }

  /** Everything has been sent once at the start. */
  ghost predicate AllSentFirst(transactions: seq<Transaction>, blockhash: nat, sent: seq<Signature>) {
    && |transactions| <= |sent|
    && forall i :: 0 <= i < |transactions| ==> sent[i] == Signature(transactions[i].id, blockhash)
  }

  /** Each that is pending has been sent five times. */
  ghost predicate ExpiredTooOften(s: State) {
    s.pending != [] && forall p :: p in s.pending ==> TimesSent(s.sent, p.id) == MAX_EXPIRED_BLOCKHASHES
  }

  /** Whatever the network answers, and wherever a run is looked at: unless sending never begins, each
      transaction is in exactly one of pending, succeeded and failed, under a signature it was sent
      with; the pending ones have been sent once for every blockhash so far, and none more than five times.
      When the run ends well, none is pending; when the blockhash has expired too often, each that is
      pending has been sent five times. */
  lemma EveryTransactionAccountedFor(transactions: seq<Transaction>, opening: Opening, rounds: seq<Round>)
    requires forall i, j :: 0 <= i < j < |transactions| ==> transactions[i].id != transactions[j].id
    ensures var (s, outcome) := SendAll(transactions, opening, rounds, false);
            && (forall id :: TimesSent(s.sent, id) <= MAX_EXPIRED_BLOCKHASHES)
            && (outcome == Confirmed ==> s.pending == [])
            && (outcome == Failed(TooManyExpiredBlockhashes) ==> ExpiredTooOften(s))
            && if opening.balance == None || opening.blockhash == None then
                 s.sent == [] && outcome == Failed(RpcError)
               else if SumBy(transactions, FeeOf) > opening.balance.value then
                 s.sent == [] && outcome == Failed(InsufficientFunds)
               else
                 && Good(set i | 0 <= i < |transactions| :: transactions[i].id, s)
                 && outcome != Failed(InsufficientFunds)
                 && AllSentFirst(transactions, opening.blockhash.value, s.sent)
  {
    if opening.balance.Some? && opening.blockhash.Some? && RequiredFee(transactions) <= opening.balance.value {
      OnceSendingBegins(transactions, opening.blockhash.value, rounds);
    }
  }

  lemma OnceSendingBegins(transactions: seq<Transaction>, blockhash: nat, rounds: seq<Round>)
    requires forall i, j :: 0 <= i < j < |transactions| ==> transactions[i].id != transactions[j].id
    ensures var (s, outcome) := Run(Opened(TransactionIds(transactions), blockhash), rounds, false);
            && (forall id :: TimesSent(s.sent, id) <= MAX_EXPIRED_BLOCKHASHES)
            && (outcome == Confirmed ==> s.pending == [])
            && (outcome == Failed(TooManyExpiredBlockhashes) ==> ExpiredTooOften(s))
            && Good(set i | 0 <= i < |transactions| :: transactions[i].id, s)
            && outcome != Failed(InsufficientFunds)
            && AllSentFirst(transactions, blockhash, s.sent)
  {
    var all, ids := set i | 0 <= i < |transactions| :: transactions[i].id, TransactionIds(transactions);
    var s := Opened(ids, blockhash);
    assert all == set i | 0 <= i < |ids| :: ids[i];
    OpenedIsGood(all, ids, blockhash);
    RunKeepsGood(all, s, rounds);
    var (s', outcome) := Run(s, rounds, false);
    assert forall i :: 0 <= i < |ids| ==> s.sent[i] == s'.sent[i];
    assert Tries(s') <= MAX_EXPIRED_BLOCKHASHES;
  }

  lemma OpenedIsGood(all: set<nat>, ids: seq<nat>, blockhash: nat)
    requires forall i, j :: 0 <= i < j < |ids| ==> ids[i] != ids[j]
    requires all == set i | 0 <= i < |ids| :: ids[i]
    ensures Good(all, Opened(ids, blockhash))
  {
    var s := Opened(ids, blockhash);
    SignProperties(ids, blockhash);
    forall id
      ensures TimesSent(s.sent, id) <= Tries(s)
    {
      SignedOnce(s.pending, id);
    }
    forall i | 0 <= i < |s.pending|
      ensures s.pending[i].signature in s.sent && TimesSent(s.sent, s.pending[i].id) == Tries(s)
    {
      assert s.sent[i] == s.pending[i].signature;
      SignedOnce(s.pending, s.pending[i].id);
    }
  }

  // ---------- What the verdicts rest on ----------

  /** What a pass makes of the transactions that it asks about: the status of its current signature, if it
      satisfies the commitment, settles a transaction, and nothing else does. */
  ghost predicate SettledBy(asked: State, s': State, status: Signature -> Option<Status>) {
    && (forall p :: p in s'.pending <==> p in asked.pending && !IsCommitted(status(p.signature)))
    && (forall g :: g in s'.succeeded <==>
                      g in asked.succeeded
                      || (status(g) == Some(Status(true, true)) && g in Signatures(asked.pending)))
    && (forall g :: g in s'.failed <==>
                      g in asked.failed
                      || (status(g) == Some(Status(true, false)) && g in Signatures(asked.pending)))
    && s'.blockhash == asked.blockhash && s'.retries == asked.retries && s'.sent == asked.sent
  }

  predicate IsCommitted(status: Option<Status>) {
    status.Some? && status.value.committed
  }

  lemma {:induction false} SettleIsExact(s: State, all: seq<Pending>, status: Signature -> Option<Status>)
    ensures var s' := Settle(s, all, status, false);
            && (forall p :: p in s'.pending <==> p in s.pending || (p in all && !IsCommitted(status(p.signature))))
            && (forall g :: g in s'.succeeded <==>
                              g in s.succeeded || (status(g) == Some(Status(true, true)) && g in Signatures(all)))
            && (forall g :: g in s'.failed <==>
                              g in s.failed || (status(g) == Some(Status(true, false)) && g in Signatures(all)))
            && s'.blockhash == s.blockhash && s'.retries == s.retries && s'.sent == s.sent
    decreases |all|
  {
    if all != [] {
      var p, rest := all[0], all[1..];
      SettleIsExact(SettleOne(s, p, status(p.signature), false), rest, status);
      assert all == [p] + rest && Signatures(all) == [p.signature] + Signatures(rest);
    }
  }

  /** What is asked about in a pass: after the blockhash has expired, everything pending is signed anew and
      has been sent once more, and otherwise nothing is sent. */
  ghost predicate Asks(s: State, round: Round, asked: State) {
    && asked.succeeded == s.succeeded && asked.failed == s.failed
    && if round.expired(s.blockhash) == Some(true) then
         && s.retries > 1 && asked.retries == s.retries - 1 && round.blockhash == Some(asked.blockhash)
         && Ids(asked.pending) == Ids(s.pending)
         && (forall p :: p in asked.pending ==> p.signature == Signature(p.id, asked.blockhash))
         && asked.sent == s.sent + Signatures(asked.pending)
       else asked == s
  }

  /** One pass: it gives up when the blockhash has expired for the last time or a query fails, and otherwise
      settles what it has asked about. */
  lemma PassAsPromised(s: State, round: Round)
    ensures var (s', error) := Pass(s, round, false);
            var expired := round.expired(s.blockhash);
            && (error == Some(TooManyExpiredBlockhashes) <==> expired == Some(true) && s.retries <= 1)
            && (error == None <==>
                  && (expired == Some(false) || (expired == Some(true) && s.retries > 1 && round.blockhash.Some?))
                  && !QueryFails(|s.pending|, round))
            && (error.Some? ==> error.value in {TooManyExpiredBlockhashes, RpcError} && (s' == s || Asks(s, round, s')))
            && (error == None ==> exists asked :: Asks(s, round, asked) && SettledBy(asked, s', round.status))
  {
    var expired := round.expired(s.blockhash);
    if expired == Some(true) && s.retries > 1 && round.blockhash.Some? {
      var asked := Resend(s, s.retries - 1, round.blockhash.value);
      assert Asks(s, round, asked);
      SettleIsExact(asked.(pending := []), asked.pending, round.status);
      assert SettledBy(asked, Settle(asked.(pending := []), asked.pending, round.status, false), round.status);
    } else if expired == Some(false) {
      assert Asks(s, round, s);
      SettleIsExact(s.(pending := []), s.pending, round.status);
      assert SettledBy(s, Settle(s.(pending := []), s.pending, round.status, false), round.status);
    }
  }

  ghost predicate Reported(signature: Signature, rounds: seq<Round>, ok: bool) {
    exists k :: 0 <= k < |rounds| && rounds[k].status(signature) == Some(Status(true, ok))
  }

  /** A transaction counts as succeeded or failed only if the network said so in some round. */
  lemma {:induction false} VerdictsAreReported(s: State, rounds: seq<Round>)
    ensures var s' := Run(s, rounds, false).0;
            && (forall g :: g in s'.succeeded ==> g in s.succeeded || Reported(g, rounds, true))
            && (forall g :: g in s'.failed ==> g in s.failed || Reported(g, rounds, false))
    decreases |rounds|
  {
    if s.pending != [] && rounds != [] {
      PassAsPromised(s, rounds[0]);
      VerdictsAreReported(Pass(s, rounds[0], false).0, rounds[1..]);
      assert forall k :: 0 <= k < |rounds| - 1 ==> rounds[1..][k] == rounds[k + 1];
      assert forall g, ok :: Reported(g, rounds[1..], ok) ==> Reported(g, rounds, ok);
    }
  }

  /** The signature that a transaction pending before the pass has in it. */
  function CurrentSignature(s: State, round: Round, id: nat): Signature {
    if round.expired(s.blockhash) == Some(true) && round.blockhash.Some? then Signature(id, round.blockhash.value)
    else Signature(id, s.blockhash)
  }

  lemma {:induction false} VerdictsStay(s: State, rounds: seq<Round>)
    ensures s.succeeded <= Run(s, rounds, false).0.succeeded && s.failed <= Run(s, rounds, false).0.failed
    decreases |rounds|
  {
    if s.pending != [] && rounds != [] {
      PassAsPromised(s, rounds[0]);
      VerdictsStay(Pass(s, rounds[0], false).0, rounds[1..]);
    }
  }

  lemma {:induction false} RunInTwo(s: State, rounds: seq<Round>, k: nat)
    requires k <= |rounds| && Run(s, rounds[..k], false).1 == Waiting
    ensures Run(s, rounds, false) == Run(Run(s, rounds[..k], false).0, rounds[k..], false)
    ensures Run(s, rounds[..k], false).0.pending != []
    decreases k
  {
    if k == 0 {
      assert rounds[..0] == [] && rounds[0..] == rounds;
    } else {
      assert rounds[..k][0] == rounds[0] && rounds[..k][1..] == rounds[1..][..k - 1];
      RunInTwo(Pass(s, rounds[0], false).0, rounds[1..], k - 1);
      assert rounds[1..][k - 1..] == rounds[k..];
    }
  }

  lemma VerdictCountsInRun(ids: set<nat>, s: State, rounds: seq<Round>, k: nat, id: nat, ok: bool)
    requires Good(ids, s) && k < |rounds| && Run(s, rounds[..k], false).1 == Waiting
    requires var before := Run(s, rounds[..k], false).0;
             && id in Ids(before.pending) && Pass(before, rounds[k], false).1 == None
             && rounds[k].status(CurrentSignature(before, rounds[k], id)) == Some(Status(true, ok))
    ensures var before, last := Run(s, rounds[..k], false).0, Run(s, rounds, false).0;
            CurrentSignature(before, rounds[k], id) in if ok then last.succeeded else last.failed
  {
    var before := Run(s, rounds[..k], false).0;
    RunInTwo(s, rounds, k);
    RunKeepsGood(ids, s, rounds[..k]);
    assert rounds[k..][0] == rounds[k];
    var after := Pass(before, rounds[k], false).0;
    VerdictCounts(ids, before, rounds[k], id, ok);
    VerdictsStay(after, rounds[k..][1..]);
  }

  /** And what the network says is what it counts as: a transaction that is still pending before a pass, and
      whose current signature is reported as committed in it, has succeeded or failed at the end, as
      reported, unless the pass itself gives up. */
  lemma ReportedVerdictsCount(
    transactions: seq<Transaction>, opening: Opening, rounds: seq<Round>, k: nat, id: nat, ok: bool)
    requires forall i, j :: 0 <= i < j < |transactions| ==> transactions[i].id != transactions[j].id
    requires k < |rounds| && SendAll(transactions, opening, rounds[..k], false).1 == Waiting
    requires var before := SendAll(transactions, opening, rounds[..k], false).0;
             && id in Ids(before.pending) && Pass(before, rounds[k], false).1 == None
             && rounds[k].status(CurrentSignature(before, rounds[k], id)) == Some(Status(true, ok))
    ensures var before := SendAll(transactions, opening, rounds[..k], false).0;
            var last := SendAll(transactions, opening, rounds, false).0;
            CurrentSignature(before, rounds[k], id) in if ok then last.succeeded else last.failed
  {
    var all, ids := set i | 0 <= i < |transactions| :: transactions[i].id, TransactionIds(transactions);
    assert all == set i | 0 <= i < |ids| :: ids[i];
    OpenedIsGood(all, ids, opening.blockhash.value);
    VerdictCountsInRun(all, Opened(ids, opening.blockhash.value), rounds, k, id, ok);
  }

  lemma VerdictCounts(ids: set<nat>, s: State, round: Round, id: nat, ok: bool)
    requires Good(ids, s) && id in Ids(s.pending) && Pass(s, round, false).1 == None
    requires round.status(CurrentSignature(s, round, id)) == Some(Status(true, ok))
    ensures var s' := Pass(s, round, false).0;
            CurrentSignature(s, round, id) in if ok then s'.succeeded else s'.failed
  {
    PassAsPromised(s, round);
    var s' := Pass(s, round, false).0;
    var asked :| Asks(s, round, asked) && SettledBy(asked, s', round.status);
    var i :| 0 <= i < |s.pending| && s.pending[i].id == id;
    assert Ids(asked.pending)[i] == Ids(s.pending)[i] && asked.pending[i] in asked.pending;
    assert Signatures(asked.pending)[i] == CurrentSignature(s, round, id);
  }

  /** A dry run sends nothing, and one pass completes it, whatever the statuses say; it ends with the one
      default signature standing for all transactions, so there the sets do not tell the transactions apart. */
  lemma DryRunSendsNothing(transactions: seq<Transaction>, opening: Opening, rounds: seq<Round>)
    ensures var (s, outcome) := SendAll(transactions, opening, rounds, true);
            && s.sent == [] && s.failed == {} && s.succeeded <= {Unsigned}
            && (outcome == Confirmed && transactions != [] ==> s.succeeded == {Unsigned})
            && (opening.balance.Some? && opening.blockhash.Some? && rounds != []
                && SumBy(transactions, FeeOf) <= opening.balance.value
                && !SimulationFails(TransactionIds(transactions), opening) ==>
                  outcome == if transactions == [] || Answers(rounds[0], opening.blockhash.value, |transactions|)
                             then Confirmed else Failed(RpcError))
  {
    var ids := TransactionIds(transactions);
    if opening.blockhash.Some? {
      DryRun(Simulated(ids, opening.blockhash.value), rounds);
    }
  }

  /** The queries of a pass that sends nothing are answered. */
  predicate Answers(round: Round, blockhash: nat, n: nat) {
    round.expired(blockhash).Some? && !QueryFails(n, round)
  }

  lemma {:induction false} DrySettle(s: State, all: seq<Pending>, status: Signature -> Option<Status>)
    requires forall p :: p in all ==> p.signature == Unsigned
    ensures Settle(s, all, status, true) == s.(succeeded := if all == [] then s.succeeded else s.succeeded + {Unsigned})
    decreases |all|
  {
    if all != [] {
      DrySettle(SettleOne(s, all[0], status(all[0].signature), true), all[1..], status);
    }
  }

  lemma DryRun(s: State, rounds: seq<Round>)
    requires s.sent == [] && s.failed == {} && s.succeeded == {}
    requires forall p :: p in s.pending ==> p.signature == Unsigned
    ensures var (s', outcome) := Run(s, rounds, true);
            && s'.sent == [] && s'.failed == {} && s'.succeeded <= {Unsigned}
            && (outcome == Confirmed && s.pending != [] ==> s'.succeeded == {Unsigned})
            && (rounds != [] ==>
                  outcome == if s.pending == [] || Answers(rounds[0], s.blockhash, |s.pending|) then Confirmed
                             else Failed(RpcError))
  {
    if s.pending != [] && rounds != [] {
      DrySettle(s.(pending := []), s.pending, rounds[0].status);
    }
  }
}
