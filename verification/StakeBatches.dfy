/** The batches of transactions that the phases of the v0 pool send, and why the stake program never
    rejects a split. */
module StakeBatches {
  import opened Collections
  import opened StakeTypes
  import opened StakeAllocator
  import opened StakeLedger

  // ---------- What a phase may rely on ----------

  /** The reserve account holds undelegated stake. */
  ghost predicate ReserveIdle(l: Ledger) {
    Reserve in l ==> l[Reserve].activation.Inactive?
  }

  /** Stake can be split off for the validator: it has an active stake account and its transient
      address is unused. */
  ghost predicate ReadyToSplit(l: Ledger, v: ValidatorStake) {
    && StakeOf(v.voteAddress) in l
    && l[StakeOf(v.voteAddress)].activation.Active?
    && TransientOf(v.voteAddress) !in l
  }

  ghost predicate SameAt(l: Ledger, l': Ledger, a: Address) {
    (a in l <==> a in l') && (a in l ==> l[a] == l'[a])
  }

  // ---------- Accounts of others ----------

  /** The account belongs to none of the listed validators. */
  ghost predicate Foreign(a: Address, desired: seq<ValidatorStake>) {
    a != Reserve && forall v :: v in desired ==> a != StakeOf(v.voteAddress) && a != TransientOf(v.voteAddress)
  }

  ghost predicate Spares(tx: Transaction, desired: seq<ValidatorStake>) {
    forall a :: a in Touched(tx) ==> !Foreign(a, desired)
  }

  ghost predicate ForeignSame(l: Ledger, l': Ledger, desired: seq<ValidatorStake>) {
    forall a :: Foreign(a, desired) ==> SameAt(l, l', a)
  }

  lemma ForeignFrame(l: Ledger, batch: seq<Transaction>, landed: seq<Transaction>, desired: seq<ValidatorStake>)
    requires forall tx :: tx in batch ==> Spares(tx, desired)
    requires multiset(landed) <= multiset(batch)
    ensures ForeignSame(l, Play(l, landed), desired)
  {
    SameElements(landed, batch);
    forall a | Foreign(a, desired)
      ensures SameAt(l, Play(l, landed), a)
    {
      PlayFrame(l, landed, a);
    }
  }

  // ---------- Batches of merges ----------

  ghost predicate IsTransientMerge(tx: Transaction) {
    tx.Merge? && tx.source.TransientOf? && (tx.destination == Reserve || tx.destination == StakeOf(tx.source.vote))
  }

  /** Merged accounts are gone, and merging brings no account back. */
  lemma {:induction false} MergesRemoveSources(l: Ledger, landed: seq<Transaction>)
    requires Lands(l, landed)
    requires forall tx :: tx in landed ==> IsTransientMerge(tx)
    ensures Play(l, landed).Keys <= l.Keys
    ensures forall tx :: tx in landed ==> tx.Merge? && tx.source !in Play(l, landed)
    decreases |landed|
  {
    if landed != [] {
      var n := |landed| - 1;
      assert landed[n] in landed;
      MergesRemoveSources(l, landed[..n]);
      assert landed == landed[..n] + [landed[n]];
    }
  }

  // ---------- Batches with one transaction for each subject ----------

  /** The account that a transaction creates, merges away, or changes the activation of. */
  function Subject(tx: Transaction): Address {
    match tx
    case Deactivate(a) => a
    case Delegate(a) => a
    case Merge(_, source) => source
    case SplitAndDelegate(_, _, target) => target
    case SplitAndDeactivate(_, _, target) => target
  }

  ghost predicate DistinctSubjects(batch: seq<Transaction>) {
    forall i, j :: 0 <= i < j < |batch| ==> Subject(batch[i]) != Subject(batch[j])
  }

  /** No transaction of the batch names the subject of another one. */
  ghost predicate Independent(batch: seq<Transaction>) {
    && DistinctSubjects(batch)
    && forall tx, other ::
      tx in batch && other in batch && Subject(tx) != Subject(other) ==> Subject(tx) !in Touched(other)
  }

  lemma OnlyOneForItsSubject(batch: seq<Transaction>, rest: seq<Transaction>, tx: Transaction, other: Transaction)
    requires DistinctSubjects(batch)
    requires multiset(rest) + multiset{tx} <= multiset(batch)
    requires other in rest
    ensures tx in batch && other in batch && Subject(other) != Subject(tx)
  {
    SameElements(rest, batch);
    assert tx in multiset(batch);
    var i :| 0 <= i < |batch| && batch[i] == tx;
    assert other in multiset(rest);
    var j := Elsewhere(batch, i, other);
    assert Subject(batch[if i < j then i else j]) != Subject(batch[if i < j then j else i]);
  }

  /** What the transaction on its own makes of its subject. */
  ghost predicate SettledAt(l: Ledger, l': Ledger, tx: Transaction) {
    match tx
    case Deactivate(a) => a in l && a in l' && l'[a] == l[a].(activation := Deactivating)
    case Delegate(a) => a in l && a in l' && l'[a] == l[a].(activation := Activating, credits := Some(0))
    case Merge(_, source) => source !in l'
    case SplitAndDelegate(_, amount, target) => target in l' && l'[target] == Account(amount, Activating, Some(0))
    case SplitAndDeactivate(_, amount, target) =>
      target in l' && l'[target].lamports == amount && l'[target].activation == Deactivating
  }

  /** In an independent batch each transaction that lands has its own effect, in whatever order they land. */
  lemma {:induction false} SubjectSettles(l: Ledger, batch: seq<Transaction>, landed: seq<Transaction>, tx: Transaction)
    requires Independent(batch)
    requires Lands(l, landed) && multiset(landed) <= multiset(batch) && tx in landed
    ensures SettledAt(l, Play(l, landed), tx)
    decreases |landed|
  {
    SameElements(landed, batch);
    var n := |landed| - 1;
    var last, earlier := landed[n], landed[..n];
    assert landed == earlier + [last];
    assert multiset(landed) == multiset(earlier) + multiset{last};
    if tx in earlier {
      OnlyOneForItsSubject(batch, earlier, last, tx);
      SubjectSettles(l, batch, earlier, tx);
      assert Subject(tx) !in Touched(last);
    } else {
      forall other | other in earlier
        ensures Subject(tx) !in Touched(other)
      {
        OnlyOneForItsSubject(batch, earlier, tx, other);
      }
      PlayFrame(l, earlier, Subject(tx));
    }
  }

  // ---------- What the stake program takes ----------

  /** Different transactions of the batch share no account but the reserve. */
  ghost predicate OwnAccounts(batch: seq<Transaction>) {
    && DistinctSubjects(batch)
    && forall tx, other ::
      tx in batch && other in batch && Subject(tx) != Subject(other) ==> ShareOnlyReserve(tx, other)
  }

  ghost predicate ShareOnlyReserve(tx: Transaction, other: Transaction) {
    forall a :: a in Touched(tx) && a in Touched(other) ==> a == Reserve
  }

  lemma OwnAccountsUntouched(l: Ledger, batch: seq<Transaction>, r: Rejection, a: Address)
    requires OwnAccounts(batch) && multiset(r.before) + multiset{r.tx} <= multiset(batch)
    requires a in Touched(r.tx) && a != Reserve
    ensures SameAt(l, Play(l, r.before), a)
  {
    forall other | other in r.before
      ensures a !in Touched(other)
    {
      OnlyOneForItsSubject(batch, r.before, r.tx, other);
      assert ShareOnlyReserve(r.tx, other);
    }
    PlayFrame(l, r.before, a);
  }

  lemma ReserveThroughout(l: Ledger, batch: seq<Transaction>, minimum: nat, r: Rejection)
    requires forall tx :: tx in batch ==> RespectsReserve(tx)
    requires SumBy(batch, ReserveDebit) <= Available(l, minimum) && minimum > 0
    requires multiset(r.before) + multiset{r.tx} <= multiset(batch)
    ensures r.tx in batch
    ensures Reserve in Play(l, r.before) <==> Reserve in l
    ensures Reserve in l ==>
              && Play(l, r.before)[Reserve].activation == l[Reserve].activation
              && ReserveDebit(r.tx) <= Play(l, r.before)[Reserve].lamports
              && ReserveDebit(r.tx) <= l[Reserve].lamports
  {
    var tx, before := r.tx, r.before;
    assert tx in multiset(batch);
    SameElements(before, batch);
    assert multiset(before + [tx]) == multiset(before) + multiset{tx};
    SumByPart(before + [tx], batch, ReserveDebit);
    assert (before + [tx])[..|before|] == before;
    if Reserve in l {
      PlayReserve(l, before);
    } else {
      PlayMakesNoReserve(l, before);
    }
  }

  /** Whatever part of the rest of the batch has landed already, in whatever order, the stake program
      takes a transaction exactly if it would have taken it at the start. */
  lemma AcceptedAsPlanned(l: Ledger, batch: seq<Transaction>, minimum: nat, r: Rejection)
    requires OwnAccounts(batch) && ReserveIdle(l)
    requires forall tx :: tx in batch ==> RespectsReserve(tx)
    requires SumBy(batch, ReserveDebit) <= Available(l, minimum) && minimum > 0
    requires multiset(r.before) + multiset{r.tx} <= multiset(batch)
    ensures r.tx in batch
    ensures Accepts(Play(l, r.before), r.tx) <==> Accepts(l, r.tx)
  {
    ReserveThroughout(l, batch, minimum, r);
    forall a | a in Touched(r.tx) && a != Reserve
      ensures SameAt(l, Play(l, r.before), a)
    {
      OwnAccountsUntouched(l, batch, r, a);
    }
    assert forall a :: a in Touched(r.tx) && a != Reserve ==> SameAt(l, Play(l, r.before), a);
    SameAcceptance(l, Play(l, r.before), r.tx);
  }

  lemma SameAcceptance(l: Ledger, l': Ledger, tx: Transaction)
    requires ReserveIdle(l) && RespectsReserve(tx)
    requires forall a :: a in Touched(tx) && a != Reserve ==> SameAt(l, l', a)
    requires Reserve in l' <==> Reserve in l
    requires Reserve in l ==>
               && l'[Reserve].activation == l[Reserve].activation
               && ReserveDebit(tx) <= l'[Reserve].lamports && ReserveDebit(tx) <= l[Reserve].lamports
    ensures Accepts(l', tx) <==> Accepts(l, tx)
  {
    match tx {
      case Deactivate(a) => assert a in Touched(tx);
      case Delegate(a) => assert a in Touched(tx);
      case Merge(d, s) => assert d in Touched(tx) && s in Touched(tx);
      case SplitAndDelegate(s, _, target) => assert s in Touched(tx) && target in Touched(tx);
      case SplitAndDeactivate(s, _, target) => assert s in Touched(tx) && target in Touched(tx);
    }
  }

  /** A batch whose transactions would all have been taken at the start is never rejected. */
  lemma NeverRejected(l: Ledger, batch: seq<Transaction>, minimum: nat, rejected: set<Rejection>)
    requires OwnAccounts(batch) && ReserveIdle(l)
    requires forall tx :: tx in batch ==> RespectsReserve(tx)
    requires SumBy(batch, ReserveDebit) <= Available(l, minimum) && minimum > 0
    requires forall r :: r in rejected ==> Rejected(l, batch, r)
    requires forall tx :: tx in batch ==> Accepts(l, tx)
    ensures rejected == {}
  {
    if r :| r in rejected {
      AcceptedAsPlanned(l, batch, minimum, r);
    }
  }

  /** And a transaction that landed would have been taken at the start. */
  lemma {:induction false} LandedWereAcceptable(
    l: Ledger, batch: seq<Transaction>, minimum: nat, landed: seq<Transaction>)
    requires OwnAccounts(batch) && ReserveIdle(l)
    requires forall tx :: tx in batch ==> RespectsReserve(tx)
    requires SumBy(batch, ReserveDebit) <= Available(l, minimum) && minimum > 0
    requires Lands(l, landed) && multiset(landed) <= multiset(batch)
    ensures forall tx :: tx in landed ==> Accepts(l, tx)
    decreases |landed|
  {
    if landed != [] {
      var n := |landed| - 1;
      assert landed == landed[..n] + [landed[n]];
      assert multiset(landed) == multiset(landed[..n]) + multiset{landed[n]};
      LandedWereAcceptable(l, batch, minimum, landed[..n]);
      AcceptedAsPlanned(l, batch, minimum, Rejection(landed[..n], landed[n]));
    }
  }

  /** A merge that landed has moved all lamports of the source to its destination. */
  lemma {:induction false} MergeSettles(l: Ledger, batch: seq<Transaction>, landed: seq<Transaction>, tx: Transaction)
    requires OwnAccounts(batch) && Lands(l, landed)
    requires multiset(landed) <= multiset(batch) && tx in landed
    requires tx.Merge? && tx.destination != Reserve && tx.source != Reserve
    ensures var l' := Play(l, landed);
            && tx.source in l && tx.destination in l && tx.source !in l' && tx.destination in l'
            && l'[tx.destination]
               == l[tx.destination].(lamports := l[tx.destination].lamports + l[tx.source].lamports)
    decreases |landed|
  {
    SameElements(landed, batch);
    var n := |landed| - 1;
    var last, earlier := landed[n], landed[..n];
    assert landed == earlier + [last];
    assert multiset(landed) == multiset(earlier) + multiset{last};
    if tx in earlier {
      OnlyOneForItsSubject(batch, earlier, last, tx);
      MergeSettles(l, batch, earlier, tx);
      assert ShareOnlyReserve(tx, last);
      assert tx.source !in Touched(last) && tx.destination !in Touched(last);
    } else {
      OwnAccountsUntouched(l, batch, Rejection(earlier, tx), tx.source);
      OwnAccountsUntouched(l, batch, Rejection(earlier, tx), tx.destination);
    }
  }

  // ---------- Batches for orphans ----------

  ghost predicate IsOrphanTransaction(l: Ledger, tx: Transaction) {
    && Subject(tx) in l && Subject(tx) != Reserve
    && (|| (tx == Deactivate(Subject(tx)) && l[Subject(tx)].activation.Active?)
        || (tx == Merge(Reserve, Subject(tx)) && l[Subject(tx)].activation.Inactive?))
  }

  /** The batch holds what the orphan needs: nothing while its activation is changing. */
  ghost predicate OrphanTransactionFor(l: Ledger, a: Address, batch: seq<Transaction>) {
    a in l &&
    match l[a].activation
    case Active => Deactivate(a) in batch
    case Inactive => Merge(Reserve, a) in batch
    case _ => forall tx :: tx in batch ==> Subject(tx) != a
  }

  /** An orphan can only be merged if there is a reserve. */
  ghost predicate OrphanTakeable(l: Ledger, a: Address) {
    a in l && l[a].activation.Inactive? ==> Reserve in l
  }

  /** Orphan transactions are rejected exactly for want of a reserve. */
  lemma OrphansTaken(
    l: Ledger, sources: set<Address>, batch: seq<Transaction>, minimum: nat, landed: seq<Transaction>,
    rejected: set<Rejection>)
    requires forall tx :: tx in batch ==> IsOrphanTransaction(l, tx) && Subject(tx) in sources
    requires forall a :: a in sources ==> OrphanTransactionFor(l, a, batch)
    requires DistinctSubjects(batch) && ReserveIdle(l) && minimum > 0
    requires Lands(l, landed) && multiset(landed) <= multiset(batch)
    requires forall r :: r in rejected ==> Rejected(l, batch, r)
    ensures (forall a :: a in sources ==> OrphanTakeable(l, a)) ==> rejected == {}
    ensures multiset(landed) == multiset(batch) ==> forall a :: a in sources ==> OrphanTakeable(l, a)
  {
    NothingDrawn(batch);
    forall tx | tx in batch
      ensures Accepts(l, tx) <==> OrphanTakeable(l, Subject(tx))
    {
    }
    if forall a :: a in sources ==> OrphanTakeable(l, a) {
      NeverRejected(l, batch, minimum, rejected);
    }
    LandedWereAcceptable(l, batch, minimum, landed);
    if multiset(landed) == multiset(batch) {
      SameElements(batch, landed);
      AllTakeable(l, sources, batch);
    }
  }

  lemma AllTakeable(l: Ledger, sources: set<Address>, batch: seq<Transaction>)
    requires forall a :: a in sources ==> OrphanTransactionFor(l, a, batch)
    requires forall tx :: tx in batch ==> Accepts(l, tx)
    ensures forall a :: a in sources ==> OrphanTakeable(l, a)
  {
    forall a | a in sources
      ensures OrphanTakeable(l, a)
    {
      assert OrphanTransactionFor(l, a, batch);
    }
  }

  ghost predicate OrphanHandled(l: Ledger, l': Ledger, a: Address) {
    a in l &&
    match l[a].activation
    case Active => a in l' && l'[a] == l[a].(activation := Deactivating)
    case Inactive => a !in l'
    case _ => SameAt(l, l', a)
  }

  lemma OrphanFrame(l: Ledger, sources: set<Address>, batch: seq<Transaction>, landed: seq<Transaction>)
    requires forall tx :: tx in batch ==> IsOrphanTransaction(l, tx) && Subject(tx) in sources
    requires multiset(landed) <= multiset(batch)
    ensures forall a :: a !in sources && a != Reserve ==> SameAt(l, Play(l, landed), a)
  {
    SameElements(landed, batch);
    forall a | a !in sources && a != Reserve
      ensures SameAt(l, Play(l, landed), a)
    {
      PlayFrame(l, landed, a);
    }
  }

  lemma OrphanBatchDone(l: Ledger, sources: set<Address>, batch: seq<Transaction>, landed: seq<Transaction>)
    requires forall tx :: tx in batch ==> IsOrphanTransaction(l, tx)
    requires forall a :: a in sources ==> OrphanTransactionFor(l, a, batch)
    requires DistinctSubjects(batch) && Reserve !in sources
    requires Lands(l, landed) && multiset(landed) == multiset(batch)
    ensures forall a :: a in sources ==> OrphanHandled(l, Play(l, landed), a)
  {
    forall a | a in sources
      ensures OrphanHandled(l, Play(l, landed), a)
    {
      OneOrphanDone(l, batch, landed, a);
    }
  }

  lemma OneOrphanDone(l: Ledger, batch: seq<Transaction>, landed: seq<Transaction>, a: Address)
    requires forall tx :: tx in batch ==> IsOrphanTransaction(l, tx)
    requires OrphanTransactionFor(l, a, batch) && a != Reserve
    requires DistinctSubjects(batch)
    requires Lands(l, landed) && multiset(landed) == multiset(batch)
    ensures OrphanHandled(l, Play(l, landed), a)
  {
    SameElements(batch, landed);
    SameElements(landed, batch);
    match l[a].activation {
      case Active => SubjectSettles(l, batch, landed, Deactivate(a));
      case Inactive => SubjectSettles(l, batch, landed, Merge(Reserve, a));
      case _ => PlayFrame(l, landed, a);
    }
  }

  // ---------- Batches that create stake accounts ----------

  /** Delegates a stake account that is not active, or creates it from the reserve. */
  ghost predicate IsCreation(l: Ledger, tx: Transaction) {
    && Subject(tx).StakeOf?
    && if Subject(tx) in l then l[Subject(tx)].activation.Inactive? && tx == Delegate(Subject(tx))
       else tx == SplitAndDelegate(Reserve, MIN_STAKE_ACCOUNT_BALANCE, Subject(tx))
  }

  ghost predicate CreationFor(l: Ledger, a: Address, created: bool, batch: seq<Transaction>) {
    if a !in l then
      if created then SplitAndDelegate(Reserve, MIN_STAKE_ACCOUNT_BALANCE, a) in batch
      else forall tx :: tx in batch ==> Subject(tx) != a
    else if l[a].activation.Inactive? then Delegate(a) in batch
    else forall tx :: tx in batch ==> Subject(tx) != a
  }

  ghost predicate CreationHandled(l: Ledger, l': Ledger, a: Address, created: bool) {
    if a !in l && created then
      a in l' && l'[a] == Account(MIN_STAKE_ACCOUNT_BALANCE, Activating, Some(0))
    else if a in l && l[a].activation.Inactive? then
      a in l' && l'[a] == l[a].(activation := Activating, credits := Some(0))
    else SameAt(l, l', a)
  }

  lemma CreationSettles(
    l: Ledger, batch: seq<Transaction>, landed: seq<Transaction>, a: Address, created: bool)
    requires forall tx :: tx in batch ==> IsCreation(l, tx)
    requires DistinctSubjects(batch) && a.StakeOf?
    requires CreationFor(l, a, created, batch)
    requires Lands(l, landed) && multiset(landed) == multiset(batch)
    ensures CreationHandled(l, Play(l, landed), a, created)
  {
    SameElements(landed, batch);
    SameElements(batch, landed);
    if a !in l && created {
      SubjectSettles(l, batch, landed, SplitAndDelegate(Reserve, MIN_STAKE_ACCOUNT_BALANCE, a));
    } else if a in l && l[a].activation.Inactive? {
      SubjectSettles(l, batch, landed, Delegate(a));
    } else {
      PlayFrame(l, landed, a);
    }
  }

  /** Active stake accounts and transient accounts are left alone. */
  lemma CreationFrame(l: Ledger, batch: seq<Transaction>, landed: seq<Transaction>, a: Address)
    requires forall tx :: tx in batch ==> IsCreation(l, tx)
    requires multiset(landed) <= multiset(batch)
    requires a.TransientOf? || (a in l && a.StakeOf? && l[a].activation.Active?)
    ensures SameAt(l, Play(l, landed), a)
  {
    SameElements(landed, batch);
    PlayFrame(l, landed, a);
  }

  /** Creations are never rejected. */
  lemma CreationsTaken(l: Ledger, batch: seq<Transaction>, minimum: nat, rejected: set<Rejection>)
    requires forall tx :: tx in batch ==> IsCreation(l, tx)
    requires DistinctSubjects(batch) && ReserveIdle(l) && minimum > 0
    requires SumBy(batch, ReserveDebit) <= Available(l, minimum)
    requires forall r :: r in rejected ==> Rejected(l, batch, r)
    ensures rejected == {}
  {
    forall tx | tx in batch
      ensures Accepts(l, tx)
    {
      assert multiset([tx]) <= multiset(batch);
      SumByPart([tx], batch, ReserveDebit);
      SumOfOne([tx], ReserveDebit);
    }
    NeverRejected(l, batch, minimum, rejected);
  }

  lemma {:induction false} NothingDrawn(batch: seq<Transaction>)
    requires forall tx :: tx in batch ==> ReserveDebit(tx) == 0
    ensures SumBy(batch, ReserveDebit) == 0
  {
    if batch != [] {
      NothingDrawn(batch[..|batch| - 1]);
    }
  }

  // ---------- Batches of splits ----------

  function ToTransaction(o: Order): Transaction {
    match o
    case Decrease(v, amount) => SplitAndDeactivate(StakeOf(v.voteAddress), amount, TransientOf(v.voteAddress))
    case Increase(v, amount) => SplitAndDelegate(Reserve, amount, TransientOf(v.voteAddress))
  }

  function ToTransactions(orders: seq<Order>): seq<Transaction> {
    seq(|orders|, i requires 0 <= i < |orders| => ToTransaction(orders[i]))
  }

  function BalanceAt(l: Ledger, a: Address): nat {
    if a in l then l[a].lamports else 0
  }

  function EntryOf(l: Ledger, v: ValidatorStake): Entry {
    Entry(BalanceAt(l, StakeOf(v.voteAddress)) + BalanceAt(l, TransientOf(v.voteAddress)), v)
  }

  function EntriesOf(l: Ledger, validators: seq<ValidatorStake>): seq<Entry> {
    seq(|validators|, i requires 0 <= i < |validators| => EntryOf(l, validators[i]))
  }

  /** Every transaction of the batch is for a validator of its own, ready to be split, and takes no
      more than its stake account holds. */
  ghost predicate Splittable(l: Ledger, batch: seq<Transaction>) {
    && (forall tx :: tx in batch ==>
          || (tx.SplitAndDelegate? && tx.source == Reserve && tx.target.TransientOf?
              && tx.target !in l && tx.amount > 0)
          || (tx.SplitAndDeactivate? && tx.target.TransientOf? && tx.source == StakeOf(tx.target.vote)
              && tx.target !in l && tx.source in l && l[tx.source].activation.Active?
              && 0 < tx.amount <= l[tx.source].lamports))
    && DistinctSubjects(batch)
  }

  /** Whatever part of the rest of the batch has landed already, in whatever order, the stake program
      takes the transaction. */
  lemma SplitNeverRejected(l: Ledger, batch: seq<Transaction>, minimum: nat, r: Rejection)
    requires Splittable(l, batch) && ReserveIdle(l)
    requires SumBy(batch, ReserveDebit) <= Available(l, minimum) && minimum > 0
    requires multiset(r.before) + multiset{r.tx} <= multiset(batch)
    ensures Accepts(Play(l, r.before), r.tx)
  {
    SplitsRespectReserve(l, batch);
    AcceptedAsPlanned(l, batch, minimum, r);
    ReserveThroughout(l, batch, minimum, r);
    if r.tx.SplitAndDelegate? {
      assert multiset([r.tx]) <= multiset(batch);
      SumByPart([r.tx], batch, ReserveDebit);
      SumOfOne([r.tx], ReserveDebit);
    }
  }

  lemma SplitsAreIndependent(l: Ledger, batch: seq<Transaction>)
    requires Splittable(l, batch)
    ensures Independent(batch)
  {
  }

  lemma SplitsRespectReserve(l: Ledger, batch: seq<Transaction>)
    requires Splittable(l, batch)
    ensures forall tx :: tx in batch ==> RespectsReserve(tx)
  {
  }

  /** A split that landed leaves its amount in the transient account, and a stake account it took
      from keeps the rest. */
  lemma {:induction false} SplitSettles(l: Ledger, batch: seq<Transaction>, landed: seq<Transaction>, tx: Transaction)
    requires Splittable(l, batch) && Lands(l, landed)
    requires multiset(landed) <= multiset(batch) && tx in landed
    ensures tx in batch
    ensures var l' := Play(l, landed);
            && tx.target in l'
            && l'[tx.target].lamports == tx.amount
            && l'[tx.target].activation == (if tx.SplitAndDelegate? then Activating else Deactivating)
            && (tx.SplitAndDeactivate? ==> BalanceAt(l', tx.source) == l[tx.source].lamports - tx.amount)
    decreases |landed|
  {
    SameElements(landed, batch);
    var n := |landed| - 1;
    var last, earlier := landed[n], landed[..n];
    assert landed == earlier + [last];
    assert multiset(landed) == multiset(earlier) + multiset{last};
    if tx in earlier {
      OnlyOneForItsSubject(batch, earlier, last, tx);
      SplitSettles(l, batch, earlier, tx);
      SplitsApart(l, batch, tx, last);
    } else {
      SplitAlone(l, batch, earlier, tx);
      SplitLands(Play(l, earlier), tx);
    }
  }

  /** Different splits of the batch share no account but the reserve. */
  lemma SplitsApart(l: Ledger, batch: seq<Transaction>, tx: Transaction, other: Transaction)
    requires Splittable(l, batch) && tx in batch && other in batch && Subject(tx) != Subject(other)
    ensures tx.target !in Touched(other) && (tx.SplitAndDeactivate? ==> tx.source !in Touched(other))
  {
  }

  lemma SplitAlone(l: Ledger, batch: seq<Transaction>, earlier: seq<Transaction>, tx: Transaction)
    requires Splittable(l, batch) && multiset(earlier) + multiset{tx} <= multiset(batch)
    ensures tx in batch && SameAt(l, Play(l, earlier), tx.target)
    ensures tx.SplitAndDeactivate? ==> SameAt(l, Play(l, earlier), tx.source)
  {
    assert tx in multiset(batch);
    forall other | other in earlier
      ensures tx.target !in Touched(other)
      ensures tx.SplitAndDeactivate? ==> tx.source !in Touched(other)
    {
      OnlyOneForItsSubject(batch, earlier, tx, other);
      SplitsApart(l, batch, tx, other);
    }
    PlayFrame(l, earlier, tx.target);
    if tx.SplitAndDeactivate? {
      PlayFrame(l, earlier, tx.source);
    }
  }

  lemma SplitLands(l: Ledger, tx: Transaction)
    requires Accepts(l, tx) && (tx.SplitAndDelegate? || tx.SplitAndDeactivate?) && tx.source != tx.target
    ensures var l' := Execute(l, tx);
            && tx.target in l' && l'[tx.target].lamports == tx.amount
            && l'[tx.target].activation == (if tx.SplitAndDelegate? then Activating else Deactivating)
            && BalanceAt(l', tx.source) == l[tx.source].lamports - tx.amount
  {
  }

  // ---------- From the allocation to the batch ----------

  ghost predicate DistinctVotes(q: seq<Entry>) {
    forall i, j :: 0 <= i < j < |q| ==> q[i].validator.voteAddress != q[j].validator.voteAddress
  }

  ghost predicate AllReady(l: Ledger, q: seq<Entry>) {
    forall i :: 0 <= i < |q| ==> ReadyToSplit(l, q[i].validator) && q[i] == EntryOf(l, q[i].validator)
  }

  lemma ToTransactionsStep(orders: seq<Order>, last: seq<Order>)
    requires |last| <= 1
    ensures ToTransactions(orders + last) ==
            ToTransactions(orders) + (if last == [] then [] else [ToTransaction(last[0])])
  {
  }

  lemma {:induction false} DrawnIsSpent(q: seq<Entry>, n: nat, targets: Targets, reserve: nat)
    requires n <= |q|
    ensures SumBy(ToTransactions(Orders(q, n, targets, 0, reserve)), ReserveDebit) == Spent(q, n, targets, 0, reserve)
  {
    if n > 0 {
      DrawnIsSpent(q, n - 1, targets, reserve);
      var orders := Orders(q, n - 1, targets, 0, reserve);
      var last := OrdersOf(q[n - 1].validator, OpFor(q, n - 1, targets, 0, reserve));
      ToTransactionsStep(orders, last);
      if last == [] {
        assert ToTransactions(orders + last) == ToTransactions(orders);
      } else {
        assert (ToTransactions(orders) + [ToTransaction(last[0])])[..|orders|] == ToTransactions(orders);
      }
    }
  }

  /** The orders are for different validators of the queue, and no validator is asked for more than
      its balance. */
  lemma {:induction false} OrdersAreSplits(l: Ledger, q: seq<Entry>, n: nat, targets: Targets, reserve: nat)
    requires n <= |q| && DistinctVotes(q) && AllReady(l, q)
    ensures Splittable(l, ToTransactions(Orders(q, n, targets, 0, reserve)))
  {
    if n > 0 {
      OrdersAreSplits(l, q, n - 1, targets, reserve);
      NoOvershoot(q, n - 1, targets, 0, reserve);
      var orders := Orders(q, n - 1, targets, 0, reserve);
      var last := OrdersOf(q[n - 1].validator, OpFor(q, n - 1, targets, 0, reserve));
      ToTransactionsStep(orders, last);
      if last == [] {
        assert ToTransactions(orders + last) == ToTransactions(orders);
      } else {
        forall p | p in orders
          ensures p.validator.voteAddress != last[0].validator.voteAddress
        {
          OrderIffDecided(q, n - 1, targets, 0, reserve, p);
        }
        OneMoreSplit(l, orders, last[0]);
      }
    }
  }

  lemma OneMoreSplit(l: Ledger, orders: seq<Order>, o: Order)
    requires Splittable(l, ToTransactions(orders))
    requires ReadyToSplit(l, o.validator)
    requires 0 < o.amount
    requires o.Decrease? ==> o.amount <= l[StakeOf(o.validator.voteAddress)].lamports
    requires forall p :: p in orders ==> p.validator.voteAddress != o.validator.voteAddress
    ensures Splittable(l, ToTransactions(orders) + [ToTransaction(o)])
  {
    var batch := ToTransactions(orders);
    forall i | 0 <= i < |batch|
      ensures batch[i].target == TransientOf(orders[i].validator.voteAddress)
    {
      assert batch[i] == ToTransaction(orders[i]);
    }
  }

  /** However the entries are arranged, each is that of a validator of the list. */
  lemma QueuedFromList(l: Ledger, validators: seq<ValidatorStake>, q: seq<Entry>, i: nat)
    requires multiset(q) == multiset(EntriesOf(l, validators)) && i < |q|
    ensures q[i].validator in validators && q[i] == EntryOf(l, q[i].validator)
  {
    var entries := EntriesOf(l, validators);
    assert q[i] in multiset(q);
    var k :| 0 <= k < |entries| && entries[k] == q[i];
    assert validators[k] in validators;
  }

  lemma QueuedSomewhere(l: Ledger, validators: seq<ValidatorStake>, q: seq<Entry>, v: ValidatorStake)
    requires multiset(q) == multiset(EntriesOf(l, validators)) && v in validators
    ensures exists i :: 0 <= i < |q| && q[i].validator == v
  {
    var k :| 0 <= k < |validators| && validators[k] == v;
    assert EntriesOf(l, validators)[k] in multiset(q);
  }

  lemma QueuedOnce(l: Ledger, validators: seq<ValidatorStake>, q: seq<Entry>, i: nat, j: nat)
    requires multiset(q) == multiset(EntriesOf(l, validators)) && Distinct(validators) && i < j < |q|
    ensures q[i].validator.voteAddress != q[j].validator.voteAddress
    ensures q[i].validator.identity != q[j].validator.identity
  {
    var a, b := TwoPlaces(EntriesOf(l, validators), q, i, j);
    assert validators[a].voteAddress != validators[b].voteAddress;
  }

  /** The queue of ready validators of distinct vote addresses is what `OrdersAreSplits` asks for. */
  lemma QueueOfReady(l: Ledger, validators: seq<ValidatorStake>)
    requires Distinct(validators)
    requires forall v :: v in validators ==> ReadyToSplit(l, v)
    ensures var q := Queue(EntriesOf(l, validators));
            && DistinctVotes(q)
            && AllReady(l, q)
            && (forall i :: 0 <= i < |q| ==> q[i].validator in validators)
            && (forall v :: v in validators ==> exists i :: 0 <= i < |q| && q[i].validator == v)
  {
    QueueIsPermutation(EntriesOf(l, validators));
    AnyQueueOfReady(l, validators, Queue(EntriesOf(l, validators)));
  }

  lemma AnyQueueOfReady(l: Ledger, validators: seq<ValidatorStake>, q: seq<Entry>)
    requires Distinct(validators) && multiset(q) == multiset(EntriesOf(l, validators))
    requires forall v :: v in validators ==> ReadyToSplit(l, v)
    ensures DistinctVotes(q) && AllReady(l, q)
    ensures forall i :: 0 <= i < |q| ==> q[i].validator in validators
    ensures forall v :: v in validators ==> exists i :: 0 <= i < |q| && q[i].validator == v
  {
    forall i | 0 <= i < |q|
      ensures ReadyToSplit(l, q[i].validator) && q[i] == EntryOf(l, q[i].validator) && q[i].validator in validators
    {
      QueuedFromList(l, validators, q, i);
    }
    forall i, j | 0 <= i < j < |q|
      ensures q[i].validator.voteAddress != q[j].validator.voteAddress
    {
      QueuedOnce(l, validators, q, i, j);
    }
    forall v | v in validators
      ensures exists i :: 0 <= i < |q| && q[i].validator == v
    {
      QueuedSomewhere(l, validators, q, v);
    }
  }
}
