/** What the phases of the v0 pool plan from the ledger, and what their batches come to when they land:
    who is busy, which merges and creations to send, and how the stake is handed out. */
module StakePhases {
  import opened Collections
  import opened StakeTypes
  import opened StakeAllocator
  import opened StakeLedger
  import opened StakeBatches

  datatype Error =
    | BaselineTooSmall
    | MinimumReserveTooSmall
    | OrphanMergeFailed
    | InvalidStakeAccount
    | TransientMergeFailed
    | CreationFailed
    | NotEnoughStakeToCoverBaseline
    | DistributionFailed

  /** Why a validator is busy, or what was decided for it. */
  datatype Action =
    | TransientActivating
    | TransientDeactivating
    | CreditsMismatch
    | StakeActivating
    | StakeDeactivating
    | StakeInactive
    | InsufficientFunds
    | CreatingStakeAccount
    | TargetStake(desired: nat, balance: nat, op: Op)

  type Actions = map<Pubkey, Action>

  /** A transient account to be merged whose validator has no stake account. */
  ghost predicate Dangling(l: Ledger, v: ValidatorStake) {
    TransientOf(v.voteAddress) in l && l[TransientOf(v.voteAddress)].activation.Active? && StakeOf(v.voteAddress) !in l
  }

  ghost predicate SomeDangling(l: Ledger, desired: seq<ValidatorStake>) {
    exists v :: v in desired && Dangling(l, v)
  }

  /** The validators that may be given or relieved of stake. */
  function NotBusy(desired: seq<ValidatorStake>, busy: set<Pubkey>): (r: seq<ValidatorStake>)
    ensures forall v :: v in r <==> v in desired && v.identity !in busy
  {
    if desired == [] then []
    else
      var n := |desired| - 1;
      assert desired == desired[..n] + [desired[n]];
      NotBusy(desired[..n], busy) + (if desired[n].identity in busy then [] else [desired[n]])
  }

  lemma {:induction false} NotBusyDistinct(desired: seq<ValidatorStake>, busy: set<Pubkey>)
    requires Distinct(desired)
    ensures Distinct(NotBusy(desired, busy))
  {
    if desired != [] {
      var n := |desired| - 1;
      NotBusyDistinct(desired[..n], busy);
      forall v | v in NotBusy(desired[..n], busy)
        ensures v.identity != desired[n].identity && v.voteAddress != desired[n].voteAddress
      {
      }
    }
  }

  /** The busy set of the two earlier phases is what makes distribution possible: the merges have
      cleared the transient address of everyone else, and everyone else has active stake. */
  lemma NotBusyAreReady(
    l: Ledger, l': Ledger, desired: seq<ValidatorStake>, busyTransients: set<Pubkey>, actions: Actions)
    requires Distinct(desired)
    requires actions.Keys == busyTransients + WithoutActiveStake(l, desired)
    requires forall v :: v in desired && v.identity !in busyTransients ==> TransientOf(v.voteAddress) !in l
    requires forall v :: v in desired ==>
               CreationHandled(l, l', StakeOf(v.voteAddress), IsCreating(actions, v.identity))
    requires forall vote :: SameAt(l, l', TransientOf(vote))
    ensures forall v :: v in desired && v.identity !in actions ==> ReadyToSplit(l', v)
    ensures Distinct(NotBusy(desired, actions.Keys))
    ensures forall v :: v in NotBusy(desired, actions.Keys) ==> ReadyToSplit(l', v)
  {
    NotBusyDistinct(desired, actions.Keys);
    forall v | v in desired && v.identity !in actions
      ensures ReadyToSplit(l', v)
    {
      assert v.identity !in WithoutActiveStake(l, desired);
      assert ActiveStake(l, v);
      assert SameAt(l, l', TransientOf(v.voteAddress));
    }
  }

  // ---------- Orphans ----------

  /** The stake accounts at addresses that no listed validator uses. */
  ghost function Orphans(l: Ledger, desired: seq<ValidatorStake>): set<Address> {
    set a | a in l && Foreign(a, desired)
  }

  ghost predicate OrphansTakeable(l: Ledger, sources: set<Address>) {
    forall a :: a in sources ==> OrphanTakeable(l, a)
  }

  ghost predicate AllOrphansHandled(l: Ledger, l': Ledger, sources: set<Address>) {
    forall a :: a in sources ==> OrphanHandled(l, l', a)
  }

  /** The batch holds exactly what the orphans need. */
  ghost predicate OrphansPlanned(l: Ledger, sources: set<Address>, batch: seq<Transaction>) {
    && (forall tx :: tx in batch ==> IsOrphanTransaction(l, tx) && Subject(tx) in sources)
    && (forall a :: a in sources ==> OrphanTransactionFor(l, a, batch))
    && DistinctSubjects(batch)
  }

  lemma OrphanStep(l: Ledger, sources: set<Address>, batch: seq<Transaction>, a: Address, instruction: seq<Transaction>)
    requires OrphansPlanned(l, sources, batch) && a in l && a !in sources && a != Reserve
    requires instruction == match l[a].activation
                            case Active => [Deactivate(a)]
                            case Inactive => [Merge(Reserve, a)]
                            case _ => []
    ensures OrphansPlanned(l, sources + {a}, batch + instruction)
  {
    forall b | b in sources
      ensures OrphanTransactionFor(l, b, batch + instruction)
    {
      assert OrphanTransactionFor(l, b, batch);
    }
  }

  method PlanOrphans(l: Ledger, sources: set<Address>) returns (transactions: seq<Transaction>)
    requires sources <= l.Keys && Reserve !in sources
    ensures OrphansPlanned(l, sources, transactions)
  {
    transactions := [];
    var todo := sources;
    while todo != {}
      invariant todo <= sources && OrphansPlanned(l, sources - todo, transactions)
      decreases todo
    {
      var a :| a in todo;
      var instruction := [];
      match l[a].activation {
        case Activating =>
        case Deactivating =>
        case Active => instruction := [Deactivate(a)];
        case Inactive => instruction := [Merge(Reserve, a)];
      }
      OrphanStep(l, sources - todo, transactions, a, instruction);
      transactions := transactions + instruction;
      assert sources - (todo - {a}) == sources - todo + {a};
      todo := todo - {a};
    }
    assert sources - todo == sources;
  }

  /** What comes of the orphans: nothing else is touched but the reserve; a transaction is rejected
      exactly for want of a reserve; and when all have landed, every orphan is handled. */
  lemma OrphansSent(
    l: Ledger, sources: set<Address>, batch: seq<Transaction>, minimum: nat, landed: seq<Transaction>,
    rejected: set<Rejection>)
    requires OrphansPlanned(l, sources, batch) && Reserve !in sources && ReserveIdle(l) && minimum > 0
    requires Lands(l, landed) && multiset(landed) <= multiset(batch)
    requires forall r :: r in rejected ==> Rejected(l, batch, r)
    ensures forall tx :: tx in batch ==> RespectsReserve(tx)
    ensures SumBy(batch, ReserveDebit) == 0
    ensures forall a :: a !in sources && a != Reserve ==> SameAt(l, Play(l, landed), a)
    ensures OrphansTakeable(l, sources) ==> rejected == {}
    ensures multiset(landed) == multiset(batch) ==>
              AllOrphansHandled(l, Play(l, landed), sources) && OrphansTakeable(l, sources)
  {
    NothingDrawn(batch);
    OrphanFrame(l, sources, batch, landed);
    OrphansTaken(l, sources, batch, minimum, landed, rejected);
    if multiset(landed) == multiset(batch) {
      OrphanBatchDone(l, sources, batch, landed);
    }
  }

  // ---------- Merging ----------

  /** Merging transient accounts leaves every stake account with its activation. */
  lemma {:induction false} MergesKeepActivation(l: Ledger, landed: seq<Transaction>, vote: Pubkey)
    requires forall tx :: tx in landed ==> IsTransientMerge(tx)
    ensures var l' := Play(l, landed);
            && (StakeOf(vote) in l' <==> StakeOf(vote) in l)
            && (StakeOf(vote) in l ==> l'[StakeOf(vote)].activation == l[StakeOf(vote)].activation)
    decreases |landed|
  {
    if landed != [] {
      var n := |landed| - 1;
      assert landed[n] in landed;
      MergesKeepActivation(l, landed[..n], vote);
    }
  }

  ghost predicate SameActivation(l: Ledger, l': Ledger, a: Address) {
    (a in l' <==> a in l) && (a in l ==> l'[a].activation == l[a].activation)
  }

  lemma SameActiveStake(l: Ledger, landed: seq<Transaction>, desired: seq<ValidatorStake>)
    requires forall tx :: tx in landed ==> IsTransientMerge(tx)
    ensures WithoutActiveStake(Play(l, landed), desired) == WithoutActiveStake(l, desired)
    ensures forall v :: v in desired ==> SameActivation(l, Play(l, landed), StakeOf(v.voteAddress))
  {
    forall v | v in desired
      ensures ActiveStake(Play(l, landed), v) <==> ActiveStake(l, v)
      ensures SameActivation(l, Play(l, landed), StakeOf(v.voteAddress))
    {
      MergesKeepActivation(l, landed, v.voteAddress);
    }
  }

  /** What is sent for the transient account of a validator. */
  function MergeFor(l: Ledger, v: ValidatorStake): Option<Transaction> {
    var stake, transient := StakeOf(v.voteAddress), TransientOf(v.voteAddress);
    if transient !in l then None
    else match l[transient].activation
      case Activating => None
      case Deactivating => None
      case Active =>
        if stake in l && SameCreditsObserved(l[stake], l[transient]) then Some(Merge(stake, transient)) else None
      case Inactive => Some(Merge(Reserve, transient))
  }

  /** The stake program takes the merge, if there is one. */
  ghost predicate TransientTakeable(l: Ledger, v: ValidatorStake) {
    MergeFor(l, v).Some? ==> Accepts(l, MergeFor(l, v).value)
  }

  ghost predicate TransientsTakeable(l: Ledger, desired: seq<ValidatorStake>) {
    forall v :: v in desired ==> TransientTakeable(l, v)
  }

  /** An inactive transient account needs a reserve to be merged into; an active one needs the stake
      account, with the same credits, to be active too. */
  lemma TakeableIff(l: Ledger, v: ValidatorStake)
    requires ReserveIdle(l)
    ensures TransientTakeable(l, v) <==>
              var stake, transient := StakeOf(v.voteAddress), TransientOf(v.voteAddress);
              transient in l ==>
                && (l[transient].activation.Inactive? ==> Reserve in l)
                && (l[transient].activation.Active? && stake in l && SameCreditsObserved(l[stake], l[transient]) ==>
                      l[stake].activation.Active?)
  {
  }

  /** The batch holds exactly the merges for the first `i` validators. */
  ghost predicate MergesSoFar(l: Ledger, desired: seq<ValidatorStake>, i: nat, batch: seq<Transaction>)
    requires i <= |desired|
  {
    && (forall tx :: tx in batch ==> exists j :: 0 <= j < i && MergeFor(l, desired[j]) == Some(tx))
    && (forall j :: 0 <= j < i && MergeFor(l, desired[j]).Some? ==> MergeFor(l, desired[j]).value in batch)
    && DistinctSubjects(batch)
  }

  lemma MergeStep(
    l: Ledger, desired: seq<ValidatorStake>, i: nat, batch: seq<Transaction>, instruction: seq<Transaction>)
    requires i < |desired| && Distinct(desired) && MergesSoFar(l, desired, i, batch)
    requires instruction == if MergeFor(l, desired[i]).Some? then [MergeFor(l, desired[i]).value] else []
    ensures MergesSoFar(l, desired, i + 1, batch + instruction)
  {
    if instruction == [] {
      assert batch + instruction == batch;
    } else {
      forall tx | tx in batch
        ensures Subject(tx) != Subject(instruction[0])
      {
        var j :| 0 <= j < i && MergeFor(l, desired[j]) == Some(tx);
        assert desired[j].voteAddress != desired[i].voteAddress;
      }
    }
  }

  /** Why the transient account makes its validator busy, if it does. */
  function TransientAction(l: Ledger, v: ValidatorStake): Option<Action> {
    var stake, transient := StakeOf(v.voteAddress), TransientOf(v.voteAddress);
    if transient !in l then None
    else match l[transient].activation
      case Activating => Some(TransientActivating)
      case Deactivating => Some(TransientDeactivating)
      case Active =>
        if stake in l && !SameCreditsObserved(l[stake], l[transient]) then Some(CreditsMismatch) else None
      case Inactive => None
  }

  /** Whoever is busy with a transient account is reported as such. */
  ghost predicate TransientsReported(l: Ledger, desired: seq<ValidatorStake>, busy: Actions) {
    forall v :: v in desired && BusyTransient(l, v) ==>
      v.identity in busy && TransientAction(l, v) == Some(busy[v.identity])
  }

  lemma OneMoreTransientReported(
    l: Ledger, desired: seq<ValidatorStake>, i: nat, busy: Actions, action: Option<Action>)
    requires i < |desired| && Distinct(desired) && TransientsReported(l, desired[..i], busy)
    requires !Dangling(l, desired[i]) && action == TransientAction(l, desired[i])
    ensures var busy' := if action.Some? then busy[desired[i].identity := action.value] else busy;
            TransientsReported(l, desired[..i + 1], busy')
  {
    var busy' := if action.Some? then busy[desired[i].identity := action.value] else busy;
    forall v | v in desired[..i + 1] && BusyTransient(l, v)
      ensures v.identity in busy' && TransientAction(l, v) == Some(busy'[v.identity])
    {
      var j :| 0 <= j <= i && desired[..i + 1][j] == v;
      if j < i {
        assert v == desired[..i][j] && v.identity != desired[i].identity;
      }
    }
  }

  /** Looks at one transient account: the merge to send, if any, and why its validator is busy, if it
      is. A validator whose transient account is still warming up or cooling down, or has other
      credits than the stake account, is busy. */
  method InspectTransient(l: Ledger, v: ValidatorStake)
    returns (dangling: bool, instruction: seq<Transaction>, action: Option<Action>)
    ensures dangling <==> Dangling(l, v)
    ensures !dangling ==> instruction == (if MergeFor(l, v).Some? then [MergeFor(l, v).value] else [])
    ensures !dangling ==> (action.Some? <==> BusyTransient(l, v))
    ensures !dangling ==> action == TransientAction(l, v)
  {
    var stakeAddress, transientAddress := StakeOf(v.voteAddress), TransientOf(v.voteAddress);
    dangling, instruction, action := false, [], None;
    if transientAddress in l {
      match l[transientAddress].activation {
        case Activating => action := Some(TransientActivating);
        case Deactivating => action := Some(TransientDeactivating);
        case Active =>
          if stakeAddress !in l {
            dangling := true;
          } else if SameCreditsObserved(l[stakeAddress], l[transientAddress]) {
            instruction := [Merge(stakeAddress, transientAddress)];
          } else {
            action := Some(CreditsMismatch);
          }
        case Inactive => instruction := [Merge(Reserve, transientAddress)];
      }
    }
  }

  /** Looks at every transient account, until one has no stake account to be merged into. */
  method PlanMerges(l: Ledger, desired: seq<ValidatorStake>, actions: Actions)
    returns (r: Result<Actions, Error>, transactions: seq<Transaction>)
    requires Distinct(desired)
    ensures r.Err? <==> SomeDangling(l, desired)
    ensures r.Err? ==> r.error == InvalidStakeAccount
    ensures r.Ok? ==> r.value.Keys == actions.Keys + BusyTransients(l, desired)
    ensures r.Ok? ==> MergesSoFar(l, desired, |desired|, transactions)
    ensures r.Ok? ==> TransientsReported(l, desired, r.value)
  {
    transactions := [];
    var busy := actions;
    for i := 0 to |desired|
      invariant busy.Keys == actions.Keys + BusyTransients(l, desired[..i])
      invariant forall j :: 0 <= j < i ==> !Dangling(l, desired[j])
      invariant MergesSoFar(l, desired, i, transactions)
      invariant TransientsReported(l, desired[..i], busy)
    {
      var dangling, instruction, action := InspectTransient(l, desired[i]);
      if dangling {
        assert desired[i] in desired;
        return Err(InvalidStakeAccount), transactions;
      }
      MergeStep(l, desired, i, transactions, instruction);
      OneMoreToInspect(l, desired, i);
      OneMoreTransientReported(l, desired, i, busy, action);
      busy := if action.Some? then busy[desired[i].identity := action.value] else busy;
      transactions := transactions + instruction;
    }
    assert desired[..|desired|] == desired;
    r := Ok(busy);
  }

  lemma OneMoreToInspect(l: Ledger, desired: seq<ValidatorStake>, i: nat)
    requires i < |desired|
    ensures BusyTransients(l, desired[..i + 1]) ==
            BusyTransients(l, desired[..i]) + (if BusyTransient(l, desired[i]) then {desired[i].identity} else {})
    ensures WithoutActiveStake(l, desired[..i + 1]) ==
            WithoutActiveStake(l, desired[..i]) + (if ActiveStake(l, desired[i]) then {} else {desired[i].identity})
  {
    assert desired[..i + 1] == desired[..i] + [desired[i]];
  }

  lemma PlannedMerges(l: Ledger, desired: seq<ValidatorStake>, batch: seq<Transaction>)
    requires MergesSoFar(l, desired, |desired|, batch)
    ensures forall tx :: tx in batch ==> IsTransientMerge(tx) && Spares(tx, desired) && RespectsReserve(tx)
    ensures OwnAccounts(batch) && SumBy(batch, ReserveDebit) == 0
  {
    forall tx | tx in batch
      ensures IsTransientMerge(tx) && Spares(tx, desired)
    {
      var j :| 0 <= j < |desired| && MergeFor(l, desired[j]) == Some(tx);
      assert desired[j] in desired;
    }
    NothingDrawn(batch);
  }

  /** What the merges make of the validator's two accounts: inactive transient stake goes back to the
      reserve, active transient stake joins the stake account if their credits agree. */
  ghost predicate MergeHandled(l: Ledger, l': Ledger, v: ValidatorStake) {
    var stake, transient := StakeOf(v.voteAddress), TransientOf(v.voteAddress);
    if transient in l && l[transient].activation.Inactive? then
      transient !in l' && SameAt(l, l', stake)
    else if transient in l && l[transient].activation.Active? && stake in l
            && SameCreditsObserved(l[stake], l[transient]) then
      && transient !in l' && stake in l'
      && l'[stake] == l[stake].(lamports := l[stake].lamports + l[transient].lamports)
    else SameAt(l, l', stake) && SameAt(l, l', transient)
  }

  /** Merges for other validators do not touch the accounts of this one. */
  lemma OthersMergeElsewhere(l: Ledger, desired: seq<ValidatorStake>, batch: seq<Transaction>, v: ValidatorStake)
    requires Distinct(desired) && MergesSoFar(l, desired, |desired|, batch) && v in desired
    ensures forall tx :: tx in batch && MergeFor(l, v) != Some(tx) ==>
              StakeOf(v.voteAddress) !in Touched(tx) && TransientOf(v.voteAddress) !in Touched(tx)
  {
    var i :| 0 <= i < |desired| && desired[i] == v;
    forall tx | tx in batch && MergeFor(l, v) != Some(tx)
      ensures StakeOf(v.voteAddress) !in Touched(tx) && TransientOf(v.voteAddress) !in Touched(tx)
    {
      var j :| 0 <= j < |desired| && MergeFor(l, desired[j]) == Some(tx);
      MergeTouches(l, desired[j]);
      OtherVote(desired, i, j);
    }
  }

  lemma MergeTouches(l: Ledger, v: ValidatorStake)
    requires MergeFor(l, v).Some?
    ensures Touched(MergeFor(l, v).value) <= {Reserve, StakeOf(v.voteAddress), TransientOf(v.voteAddress)}
  {
  }

  lemma OtherVote(desired: seq<ValidatorStake>, i: nat, j: nat)
    requires Distinct(desired) && i < |desired| && j < |desired| && i != j
    ensures desired[i].voteAddress != desired[j].voteAddress
  {
  }

  lemma OneMergeHandled(
    l: Ledger, desired: seq<ValidatorStake>, batch: seq<Transaction>, landed: seq<Transaction>, v: ValidatorStake)
    requires Distinct(desired) && MergesSoFar(l, desired, |desired|, batch) && v in desired
    requires Lands(l, landed) && multiset(landed) == multiset(batch)
    ensures MergeHandled(l, Play(l, landed), v)
  {
    PlannedMerges(l, desired, batch);
    OthersMergeElsewhere(l, desired, batch, v);
    SameElements(landed, batch);
    SameElements(batch, landed);
    var stake, transient := StakeOf(v.voteAddress), TransientOf(v.voteAddress);
    var i :| 0 <= i < |desired| && desired[i] == v;
    if MergeFor(l, v) == Some(Merge(stake, transient)) {
      MergeSettles(l, batch, landed, Merge(stake, transient));
    } else {
      PlayFrame(l, landed, stake);
      if MergeFor(l, v).Some? {
        MergesRemoveSources(l, landed);
      } else {
        PlayFrame(l, landed, transient);
      }
    }
  }

  /** Only busy validators have a transient account left, and that is reported; merging has left every
      stake account with its activation. */
  ghost predicate TransientsMerged(
    l: Ledger, l': Ledger, desired: seq<ValidatorStake>, actions: Actions, busy: Actions)
  {
    && busy.Keys == actions.Keys + BusyTransients(l, desired)
    && TransientsReported(l, desired, busy)
    && (forall v :: v in desired && v.identity !in busy ==> TransientOf(v.voteAddress) !in l')
    && (forall v :: v in desired ==> SameActivation(l, l', StakeOf(v.voteAddress)))
    && WithoutActiveStake(l', desired) == WithoutActiveStake(l, desired)
    && (forall v :: v in desired ==> MergeHandled(l, l', v))
  }

  /** That is so when all merges have landed. */
  lemma MergeBatchDone(
    l: Ledger, desired: seq<ValidatorStake>, batch: seq<Transaction>, landed: seq<Transaction>, actions: Actions,
    busy: Actions)
    requires Distinct(desired) && MergesSoFar(l, desired, |desired|, batch) && !SomeDangling(l, desired)
    requires Lands(l, landed) && multiset(landed) == multiset(batch)
    requires busy.Keys == actions.Keys + BusyTransients(l, desired) && TransientsReported(l, desired, busy)
    ensures TransientsMerged(l, Play(l, landed), desired, actions, busy)
  {
    PlannedMerges(l, desired, batch);
    SameElements(landed, batch);
    SameElements(batch, landed);
    MergesRemoveSources(l, landed);
    SameActiveStake(l, landed, desired);
    forall v | v in desired
      ensures MergeHandled(l, Play(l, landed), v)
    {
      OneMergeHandled(l, desired, batch, landed, v);
    }
    forall v | v in desired && !BusyTransient(l, v)
      ensures TransientOf(v.voteAddress) !in Play(l, landed)
    {
      var j :| 0 <= j < |desired| && desired[j] == v;
      assert !Dangling(l, v);
      assert MergeFor(l, v).Some? ==> MergeFor(l, v).value in batch;
    }
  }

  /** The merges are rejected exactly when one of them would not have been taken at the start. */
  lemma MergesTaken(
    l: Ledger, desired: seq<ValidatorStake>, batch: seq<Transaction>, minimum: nat,
    landed: seq<Transaction>, rejected: set<Rejection>)
    requires MergesSoFar(l, desired, |desired|, batch) && ReserveIdle(l) && minimum > 0
    requires Lands(l, landed) && multiset(landed) <= multiset(batch)
    requires forall r :: r in rejected ==> Rejected(l, batch, r)
    ensures TransientsTakeable(l, desired) ==> rejected == {}
    ensures multiset(landed) == multiset(batch) ==> TransientsTakeable(l, desired)
  {
    PlannedMerges(l, desired, batch);
    if forall v :: v in desired ==> TransientTakeable(l, v) {
      forall tx | tx in batch
        ensures Accepts(l, tx)
      {
        var j :| 0 <= j < |desired| && MergeFor(l, desired[j]) == Some(tx);
        assert TransientTakeable(l, desired[j]);
      }
      NeverRejected(l, batch, minimum, rejected);
    }
    LandedWereAcceptable(l, batch, minimum, landed);
    if multiset(landed) == multiset(batch) {
      SameElements(batch, landed);
      forall v | v in desired
        ensures TransientTakeable(l, v)
      {
        var j :| 0 <= j < |desired| && desired[j] == v;
        assert MergeFor(l, desired[j]).Some? ==> MergeFor(l, desired[j]).value in batch;
      }
    }
  }

  /** What comes of the merges, landed in full or in part. */
  lemma MergesSent(
    l: Ledger, desired: seq<ValidatorStake>, batch: seq<Transaction>, minimum: nat,
    landed: seq<Transaction>, rejected: set<Rejection>)
    requires MergesSoFar(l, desired, |desired|, batch) && ReserveIdle(l) && minimum > 0
    requires Lands(l, landed) && multiset(landed) <= multiset(batch)
    requires forall r :: r in rejected ==> Rejected(l, batch, r)
    ensures (forall tx :: tx in batch ==> RespectsReserve(tx)) && SumBy(batch, ReserveDebit) == 0
    ensures ForeignSame(l, Play(l, landed), desired)
    ensures TransientsTakeable(l, desired) ==> rejected == {}
    ensures multiset(landed) == multiset(batch) ==> TransientsTakeable(l, desired)
  {
    PlannedMerges(l, desired, batch);
    ForeignFrame(l, batch, landed, desired);
    MergesTaken(l, desired, batch, minimum, landed, rejected);
  }

  // ---------- Creating ----------

  /** What the stake account says about its validator; `None` is for an active one. */
  ghost predicate StakeActionFits(l: Ledger, stakeAddress: Address, action: Option<Action>) {
    if stakeAddress !in l then action in {Some(InsufficientFunds), Some(CreatingStakeAccount)}
    else match l[stakeAddress].activation
      case Activating => action == Some(StakeActivating)
      case Deactivating => action == Some(StakeDeactivating)
      case Active => action == None
      case Inactive => action == Some(StakeInactive)
  }

  /** Whoever has no active stake is reported as such, and what was reported about the others stays. */
  ghost predicate StakesReported(l: Ledger, desired: seq<ValidatorStake>, actions: Actions, busy: Actions) {
    && (forall v :: v in desired && !ActiveStake(l, v) ==>
          v.identity in busy && StakeActionFits(l, StakeOf(v.voteAddress), Some(busy[v.identity])))
    && forall k :: k in actions && k !in WithoutActiveStake(l, desired) ==> k in busy && busy[k] == actions[k]
  }

  lemma OneMoreStakeReported(
    l: Ledger, desired: seq<ValidatorStake>, i: nat, actions: Actions, busy: Actions, action: Option<Action>)
    requires i < |desired| && Distinct(desired) && StakesReported(l, desired[..i], actions, busy)
    requires StakeActionFits(l, StakeOf(desired[i].voteAddress), action)
    ensures var busy' := if action.Some? then busy[desired[i].identity := action.value] else busy;
            StakesReported(l, desired[..i + 1], actions, busy')
  {
    var busy' := if action.Some? then busy[desired[i].identity := action.value] else busy;
    OneMoreToInspect(l, desired, i);
    forall v | v in desired[..i + 1] && !ActiveStake(l, v)
      ensures v.identity in busy' && StakeActionFits(l, StakeOf(v.voteAddress), Some(busy'[v.identity]))
    {
      var j :| 0 <= j <= i && desired[..i + 1][j] == v;
      if j < i {
        assert v == desired[..i][j] && v.identity != desired[i].identity;
      }
    }
  }

  /** Looks at one stake account: the instruction to send for it, and why its validator is busy. */
  method Inspect(l: Ledger, stakeAddress: Address, remaining: nat)
    returns (instruction: seq<Transaction>, action: Option<Action>)
    requires stakeAddress.StakeOf?
    ensures |instruction| <= 1 && SumBy(instruction, ReserveDebit) <= remaining
    ensures instruction != [] ==> IsCreation(l, instruction[0]) && Subject(instruction[0]) == stakeAddress
    ensures CreationFor(l, stakeAddress, action == Some(CreatingStakeAccount), instruction)
    ensures action == None <==> stakeAddress in l && l[stakeAddress].activation.Active?
    ensures StakeActionFits(l, stakeAddress, action)
    ensures stakeAddress !in l ==> (action == Some(CreatingStakeAccount) <==> remaining >= MIN_STAKE_ACCOUNT_BALANCE)
  {
    instruction, action := [], None;
    if stakeAddress in l {
      match l[stakeAddress].activation {
        case Activating => action := Some(StakeActivating);
        case Deactivating => action := Some(StakeDeactivating);
        case Active =>
        case Inactive =>
          instruction := [Delegate(stakeAddress)];
          action := Some(StakeInactive);
      }
    } else if remaining < MIN_STAKE_ACCOUNT_BALANCE {
      action := Some(InsufficientFunds);
    } else {
      instruction := [SplitAndDelegate(Reserve, MIN_STAKE_ACCOUNT_BALANCE, stakeAddress)];
      action := Some(CreatingStakeAccount);
    }
    assert instruction != [] ==> instruction[..0] == [];
  }

  /** The first `i` validators have been looked at, and `remaining` is still available in the reserve. */
  ghost predicate CreationsPlanned(
    l: Ledger, desired: seq<ValidatorStake>, i: nat, actions: Actions, minimum: nat,
    busy: Actions, batch: seq<Transaction>, remaining: nat)
    requires i <= |desired|
  {
    && CreationsSoFar(l, desired, i, busy, batch)
    && CreationsAfforded(l, desired, i, actions, minimum, busy, batch, remaining)
    && StakesReported(l, desired[..i], actions, busy)
    && CreatedWhileItLasts(l, desired, i, busy, remaining)
  }

  ghost predicate Missing(l: Ledger, v: ValidatorStake) {
    StakeOf(v.voteAddress) !in l
  }

  /** Stake accounts are created along the list until too little is left for one more. */
  ghost predicate CreatedWhileItLasts(
    l: Ledger, desired: seq<ValidatorStake>, i: nat, busy: Actions, remaining: nat)
    requires i <= |desired|
  {
    && (forall j :: 0 <= j < i && Missing(l, desired[j]) && !IsCreating(busy, desired[j].identity) ==>
          remaining < MIN_STAKE_ACCOUNT_BALANCE)
    && CreatedAlongTheList(l, desired, i, busy)
  }

  ghost predicate CreatedAlongTheList(l: Ledger, desired: seq<ValidatorStake>, i: nat, busy: Actions)
    requires i <= |desired|
  {
    forall j, k :: 0 <= j < k < i && Missing(l, desired[j]) && Missing(l, desired[k]) ==>
      IsCreating(busy, desired[k].identity) ==> IsCreating(busy, desired[j].identity)
  }

  lemma OneMoreCreated(
    l: Ledger, desired: seq<ValidatorStake>, i: nat, busy: Actions, busy': Actions, remaining: nat, remaining': nat)
    requires i < |desired| && Distinct(desired) && remaining' <= remaining
    requires CreatedWhileItLasts(l, desired, i, busy, remaining)
    requires forall k :: k != desired[i].identity ==> IsCreating(busy', k) == IsCreating(busy, k)
    requires Missing(l, desired[i]) ==>
               (IsCreating(busy', desired[i].identity) <==> remaining >= MIN_STAKE_ACCOUNT_BALANCE)
    ensures CreatedWhileItLasts(l, desired, i + 1, busy', remaining')
  {
    forall j | 0 <= j < i
      ensures IsCreating(busy', desired[j].identity) == IsCreating(busy, desired[j].identity)
    {
    }
  }

  ghost predicate CreationsAfforded(
    l: Ledger, desired: seq<ValidatorStake>, i: nat, actions: Actions, minimum: nat,
    busy: Actions, batch: seq<Transaction>, remaining: nat)
    requires i <= |desired|
  {
    && SumBy(batch, ReserveDebit) + remaining == Available(l, minimum)
    && busy.Keys == actions.Keys + WithoutActiveStake(l, desired[..i])
  }

  lemma OneMoreAfforded(
    l: Ledger, desired: seq<ValidatorStake>, i: nat, actions: Actions, minimum: nat, busy: Actions,
    action: Option<Action>, batch: seq<Transaction>, instruction: seq<Transaction>, remaining: nat)
    requires i < |desired| && SumBy(instruction, ReserveDebit) <= remaining
    requires CreationsAfforded(l, desired, i, actions, minimum, busy, batch, remaining)
    requires var stake := StakeOf(desired[i].voteAddress);
             action == None <==> stake in l && l[stake].activation.Active?
    ensures var busy' := if action.Some? then busy[desired[i].identity := action.value] else busy;
            CreationsAfforded(l, desired, i + 1, actions, minimum, busy', batch + instruction,
                              remaining - SumBy(instruction, ReserveDebit))
  {
    SumByAppend(batch, instruction, ReserveDebit);
    OneMoreToInspect(l, desired, i);
  }

  method PlanCreation(
    l: Ledger, desired: seq<ValidatorStake>, i: nat, busy: Actions, transactions: seq<Transaction>, remaining: nat,
    ghost actions: Actions, ghost minimum: nat)
    returns (busy': Actions, transactions': seq<Transaction>, remaining': nat)
    requires i < |desired| && Distinct(desired)
    requires CreationsPlanned(l, desired, i, actions, minimum, busy, transactions, remaining)
    ensures CreationsPlanned(l, desired, i + 1, actions, minimum, busy', transactions', remaining')
  {
    var identity, stakeAddress := desired[i].identity, StakeOf(desired[i].voteAddress);
    var instruction, action := Inspect(l, stakeAddress, remaining);
    remaining' := remaining - SumBy(instruction, ReserveDebit);
    busy' := if action.Some? then busy[identity := action.value] else busy;
    transactions' := transactions + instruction;
    CreationStep(l, desired, i, busy, busy', transactions, instruction);
    OneMoreAfforded(l, desired, i, actions, minimum, busy, action, transactions, instruction, remaining);
    OneMoreStakeReported(l, desired, i, actions, busy, action);
    OneMoreCreated(l, desired, i, busy, busy', remaining, remaining');
  }

  /** Looks at the stake account of every validator, and drains what is available in the reserve. */
  method PlanCreations(l: Ledger, desired: seq<ValidatorStake>, actions: Actions, minimum: nat)
    returns (busy: Actions, transactions: seq<Transaction>)
    requires Distinct(desired)
    ensures CreationsSoFar(l, desired, |desired|, busy, transactions)
    ensures SumBy(transactions, ReserveDebit) <= Available(l, minimum)
    ensures busy.Keys == actions.Keys + WithoutActiveStake(l, desired)
    ensures StakesReported(l, desired, actions, busy)
    ensures CreatedWhileItLasts(l, desired, |desired|, busy, Available(l, minimum) - SumBy(transactions, ReserveDebit))
  {
    var remaining: nat := Available(l, minimum);
    transactions, busy := [], actions;
    for i := 0 to |desired|
      invariant CreationsPlanned(l, desired, i, actions, minimum, busy, transactions, remaining)
    {
      busy, transactions, remaining :=
        PlanCreation(l, desired, i, busy, transactions, remaining, actions, minimum);
    }
    assert desired[..|desired|] == desired;
  }

  /** The first `i` validators have been looked at. */
  ghost predicate CreationsSoFar(
    l: Ledger, desired: seq<ValidatorStake>, i: nat, busy: Actions, batch: seq<Transaction>)
    requires i <= |desired|
  {
    && (forall tx :: tx in batch ==> IsCreation(l, tx))
    && (forall tx :: tx in batch ==> exists j :: 0 <= j < i && Subject(tx) == StakeOf(desired[j].voteAddress))
    && DistinctSubjects(batch)
    && forall j :: 0 <= j < i ==>
         CreationFor(l, StakeOf(desired[j].voteAddress), IsCreating(busy, desired[j].identity), batch)
  }

  /** What comes of the creations: nobody else's accounts are touched, and none is rejected. */
  lemma CreationsSent(
    l: Ledger, desired: seq<ValidatorStake>, busy: Actions, batch: seq<Transaction>, minimum: nat,
    landed: seq<Transaction>, rejected: set<Rejection>)
    requires CreationsSoFar(l, desired, |desired|, busy, batch)
    requires ReserveIdle(l) && minimum > 0 && SumBy(batch, ReserveDebit) <= Available(l, minimum)
    requires multiset(landed) <= multiset(batch)
    requires forall r :: r in rejected ==> Rejected(l, batch, r)
    ensures forall tx :: tx in batch ==> RespectsReserve(tx)
    ensures ForeignSame(l, Play(l, landed), desired) && rejected == {}
  {
    CreationsSpare(l, desired, busy, batch);
    ForeignFrame(l, batch, landed, desired);
    CreationsTaken(l, batch, minimum, rejected);
  }

  lemma CreationsSpare(l: Ledger, desired: seq<ValidatorStake>, busy: Actions, batch: seq<Transaction>)
    requires CreationsSoFar(l, desired, |desired|, busy, batch)
    ensures forall tx :: tx in batch ==> Spares(tx, desired) && RespectsReserve(tx)
  {
    forall tx | tx in batch
      ensures Spares(tx, desired) && RespectsReserve(tx)
    {
      var j :| 0 <= j < |desired| && Subject(tx) == StakeOf(desired[j].voteAddress);
      assert desired[j] in desired;
    }
  }

  lemma CreationStep(
    l: Ledger, desired: seq<ValidatorStake>, i: nat, busy: Actions, busy': Actions,
    batch: seq<Transaction>, instruction: seq<Transaction>)
    requires i < |desired| && Distinct(desired)
    requires CreationsSoFar(l, desired, i, busy, batch)
    requires |instruction| <= 1
    requires instruction != [] ==>
               IsCreation(l, instruction[0]) && Subject(instruction[0]) == StakeOf(desired[i].voteAddress)
    requires CreationFor(l, StakeOf(desired[i].voteAddress), IsCreating(busy', desired[i].identity), instruction)
    requires forall k :: k != desired[i].identity ==> IsCreating(busy', k) == IsCreating(busy, k)
    ensures CreationsSoFar(l, desired, i + 1, busy', batch + instruction)
  {
    forall tx | tx in batch
      ensures Subject(tx) != StakeOf(desired[i].voteAddress)
    {
    }
    forall j | 0 <= j < i
      ensures CreationFor(l, StakeOf(desired[j].voteAddress), IsCreating(busy', desired[j].identity),
                batch + instruction)
    {
      CreationStays(l, StakeOf(desired[j].voteAddress), IsCreating(busy, desired[j].identity), batch, instruction);
    }
    CreationStays'(l, StakeOf(desired[i].voteAddress), IsCreating(busy', desired[i].identity), batch, instruction);
  }

  lemma CreationStays(l: Ledger, a: Address, created: bool, batch: seq<Transaction>, more: seq<Transaction>)
    requires CreationFor(l, a, created, batch)
    requires forall tx :: tx in more ==> Subject(tx) != a
    ensures CreationFor(l, a, created, batch + more)
  {
  }

  lemma CreationStays'(l: Ledger, a: Address, created: bool, earlier: seq<Transaction>, batch: seq<Transaction>)
    requires CreationFor(l, a, created, batch)
    requires forall tx :: tx in earlier ==> Subject(tx) != a
    ensures CreationFor(l, a, created, earlier + batch)
  {
  }

  /** Every stake account is looked after, which is reported, and no transient account is touched. */
  ghost predicate StakesCreated(
    l: Ledger, l': Ledger, desired: seq<ValidatorStake>, actions: Actions, busy: Actions)
  {
    && busy.Keys == actions.Keys + WithoutActiveStake(l, desired)
    && StakesReported(l, desired, actions, busy)
    && (forall v :: v in desired ==>
          CreationHandled(l, l', StakeOf(v.voteAddress), IsCreating(busy, v.identity)))
    && forall vote :: SameAt(l, l', TransientOf(vote))
  }

  lemma CreationBatchDone(
    l: Ledger, desired: seq<ValidatorStake>, actions: Actions, busy: Actions, batch: seq<Transaction>,
    landed: seq<Transaction>)
    requires busy.Keys == actions.Keys + WithoutActiveStake(l, desired) && StakesReported(l, desired, actions, busy)
    requires forall tx :: tx in batch ==> IsCreation(l, tx)
    requires DistinctSubjects(batch)
    requires forall v :: v in desired ==>
               CreationFor(l, StakeOf(v.voteAddress), IsCreating(busy, v.identity), batch)
    requires Lands(l, landed) && multiset(landed) == multiset(batch)
    ensures StakesCreated(l, Play(l, landed), desired, actions, busy)
  {
    forall v | v in desired
      ensures CreationHandled(l, Play(l, landed), StakeOf(v.voteAddress), IsCreating(busy, v.identity))
    {
      CreationSettles(l, batch, landed, StakeOf(v.voteAddress), IsCreating(busy, v.identity));
    }
    forall vote: Pubkey
      ensures SameAt(l, Play(l, landed), TransientOf(vote))
    {
      CreationFrame(l, batch, landed, TransientOf(vote));
    }
  }

  /** A stake account is only left missing when the reserve has too little for it, and then for everyone
      further down the list as well. */
  ghost predicate CreationsExhaust(
    l: Ledger, l': Ledger, desired: seq<ValidatorStake>, busy: Actions, minimum: nat)
  {
    && CreatedAlongTheList(l, desired, |desired|, busy)
    && forall v :: v in desired && Missing(l, v) && !IsCreating(busy, v.identity) ==>
                     BalanceAt(l', Reserve) < minimum + MIN_STAKE_ACCOUNT_BALANCE
  }

  lemma CreationsPaid(
    l: Ledger, desired: seq<ValidatorStake>, busy: Actions, batch: seq<Transaction>, landed: seq<Transaction>,
    minimum: nat)
    requires forall tx :: tx in batch ==> IsCreation(l, tx)
    requires SumBy(batch, ReserveDebit) <= Available(l, minimum) && minimum > 0
    requires CreatedWhileItLasts(l, desired, |desired|, busy, Available(l, minimum) - SumBy(batch, ReserveDebit))
    requires Lands(l, landed) && multiset(landed) == multiset(batch)
    ensures CreationsExhaust(l, Play(l, landed), desired, busy, minimum)
  {
    SameElements(landed, batch);
    SumByPermutation(landed, batch, ReserveDebit);
    if Reserve in l {
      ReservePays(l, landed);
    } else {
      PlayMakesNoReserve(l, landed);
    }
    var remaining: nat := Available(l, minimum) - SumBy(batch, ReserveDebit);
    forall v | v in desired && Missing(l, v) && !IsCreating(busy, v.identity)
      ensures remaining < MIN_STAKE_ACCOUNT_BALANCE
    {
      var j :| 0 <= j < |desired| && desired[j] == v;
    }
  }

  /** Everyone busy is reported with a reason: the state of the stake account, if it is not active, and
      otherwise that of the transient account. */
  ghost predicate BusyReported(l: Ledger, desired: seq<ValidatorStake>, actions: Actions) {
    forall v :: v in desired ==>
      && (!ActiveStake(l, v) ==>
            v.identity in actions && StakeActionFits(l, StakeOf(v.voteAddress), Some(actions[v.identity])))
      && (ActiveStake(l, v) && BusyTransient(l, v) ==>
            v.identity in actions && Some(actions[v.identity]) == TransientAction(l, v))
  }

  /** The reports of both phases, on what was there before the merges. */
  lemma ReportsOfBoth(
    l: Ledger, l0: Ledger, l': Ledger, desired: seq<ValidatorStake>, transients: Actions, actions: Actions)
    requires Distinct(desired)
    requires TransientsReported(l0, desired, transients) && StakesReported(l', desired, transients, actions)
    requires forall v :: v in desired ==> SameActivation(l0, l', StakeOf(v.voteAddress))
    requires forall v :: v in desired ==>
               SameAt(l, l0, StakeOf(v.voteAddress)) && SameAt(l, l0, TransientOf(v.voteAddress))
    ensures BusyReported(l, desired, actions)
  {
    forall v | v in desired
      ensures !ActiveStake(l, v) ==>
                v.identity in actions && StakeActionFits(l, StakeOf(v.voteAddress), Some(actions[v.identity]))
      ensures ActiveStake(l, v) && BusyTransient(l, v) ==>
                v.identity in actions && Some(actions[v.identity]) == TransientAction(l, v)
    {
      assert SameActivation(l0, l', StakeOf(v.voteAddress));
      assert SameAt(l, l0, StakeOf(v.voteAddress)) && SameAt(l, l0, TransientOf(v.voteAddress));
      if ActiveStake(l, v) && BusyTransient(l, v) {
        assert BusyTransient(l0, v) && ActiveStake(l', v);
        NotAmong(l', desired, v);
      }
    }
  }

  lemma NotAmong(l: Ledger, desired: seq<ValidatorStake>, v: ValidatorStake)
    requires Distinct(desired) && v in desired && ActiveStake(l, v)
    ensures v.identity !in WithoutActiveStake(l, desired)
  {
    var i :| 0 <= i < |desired| && desired[i] == v;
    forall w | w in desired && w.identity == v.identity
      ensures w == v
    {
      var j :| 0 <= j < |desired| && desired[j] == w;
    }
  }

  // ---------- Handing out ----------

  function ReportAll(actions: Actions, q: seq<Entry>, ops: seq<Op>, targets: Targets): Actions
    requires |q| == |ops|
  {
    if q == [] then actions
    else
      var n := |q| - 1;
      ReportAll(actions, q[..n], ops[..n], targets)[
        q[n].validator.identity := TargetStake(Desired(targets, q[n].validator.stakeState), q[n].balance, ops[n])]
  }

  /** What is reported of the decisions: one for every validator, and who goes without. */
  ghost predicate Reported(
    l: Ledger, validators: seq<ValidatorStake>, targets: Targets, reserve: nat, actions: Actions,
    unfunded: set<Pubkey>)
  {
    var q := Queue(EntriesOf(l, validators));
    && unfunded == Unfunded(q, |q|, targets, 0, reserve)
    && forall i :: 0 <= i < |q| ==> DecisionReported(actions, q[i], targets, OpFor(q, i, targets, 0, reserve))
  }

  predicate DecisionReported(actions: Actions, e: Entry, targets: Targets, op: Op) {
    && e.validator.identity in actions
    && actions[e.validator.identity] == TargetStake(Desired(targets, e.validator.stakeState), e.balance, op)
  }

  /** The stake is handed out as decided, unless it is a dry run, and reported; what was reported about
      other validators stays. */
  ghost predicate StakeDistributed(
    l: Ledger, l': Ledger, dryRun: bool, validators: seq<ValidatorStake>, targets: Targets, reserve: nat,
    actions: Actions, actions': Actions, unfunded: set<Pubkey>)
  {
    && Reported(l, validators, targets, reserve, actions', unfunded)
    && OthersStay(validators, actions, actions')
    && (!dryRun ==> AllDistributed(l, l', validators, targets, reserve))
  }

  lemma {:induction false} ReportsEach(actions: Actions, q: seq<Entry>, ops: seq<Op>, targets: Targets, i: nat)
    requires |q| == |ops| && i < |q|
    requires forall j :: i < j < |q| ==> q[i].validator.identity != q[j].validator.identity
    ensures DecisionReported(ReportAll(actions, q, ops, targets), q[i], targets, ops[i])
    decreases |q|
  {
    var n := |q| - 1;
    if i < n {
      assert q[..n][i] == q[i] && ops[..n][i] == ops[i];
      ReportsEach(actions, q[..n], ops[..n], targets, i);
      assert q[i].validator.identity != q[n].validator.identity;
    }
  }

  lemma {:induction false} ReportsNoOther(
    actions: Actions, q: seq<Entry>, ops: seq<Op>, targets: Targets, identity: Pubkey)
    requires |q| == |ops| && identity in actions
    requires forall i :: 0 <= i < |q| ==> q[i].validator.identity != identity
    ensures var all := ReportAll(actions, q, ops, targets);
            identity in all && all[identity] == actions[identity]
    decreases |q|
  {
    if q != [] {
      var n := |q| - 1;
      ReportsNoOther(actions, q[..n], ops[..n], targets, identity);
    }
  }

  lemma DecisionsReported(
    l: Ledger, validators: seq<ValidatorStake>, targets: Targets, reserve: nat, actions: Actions, ops: seq<Op>)
    requires Distinct(validators) && |ops| == |Queue(EntriesOf(l, validators))|
    requires var q := Queue(EntriesOf(l, validators));
             forall i :: 0 <= i < |q| ==> ops[i] == OpFor(q, i, targets, 0, reserve)
    ensures var q := Queue(EntriesOf(l, validators));
            var all := ReportAll(actions, q, ops, targets);
            && Reported(l, validators, targets, reserve, all, Unfunded(q, |q|, targets, 0, reserve))
            && OthersStay(validators, actions, all)
  {
    var q := Queue(EntriesOf(l, validators));
    QueueIsPermutation(EntriesOf(l, validators));
    forall i | 0 <= i < |q|
      ensures DecisionReported(ReportAll(actions, q, ops, targets), q[i], targets, ops[i])
    {
      OneReported(l, validators, q, targets, actions, ops, i);
    }
    OthersStayReported(l, validators, q, targets, actions, ops);
  }

  /** Every one of the validators has a report, and the others keep theirs. */
  ghost predicate OthersStay(validators: seq<ValidatorStake>, actions: Actions, all: Actions) {
    && (forall v :: v in validators ==> v.identity in all)
    && (forall k :: k in actions ==>
          k in all && ((forall v :: v in validators ==> v.identity != k) ==> all[k] == actions[k]))
  }

  lemma OneReported(
    l: Ledger, validators: seq<ValidatorStake>, q: seq<Entry>, targets: Targets, actions: Actions, ops: seq<Op>, i: nat)
    requires Distinct(validators) && multiset(q) == multiset(EntriesOf(l, validators))
    requires |ops| == |q| && i < |q|
    ensures DecisionReported(ReportAll(actions, q, ops, targets), q[i], targets, ops[i])
  {
    forall j | i < j < |q|
      ensures q[i].validator.identity != q[j].validator.identity
    {
      QueuedOnce(l, validators, q, i, j);
    }
    ReportsEach(actions, q, ops, targets, i);
  }

  lemma OthersStayReported(
    l: Ledger, validators: seq<ValidatorStake>, q: seq<Entry>, targets: Targets, actions: Actions, ops: seq<Op>)
    requires Distinct(validators) && multiset(q) == multiset(EntriesOf(l, validators)) && |ops| == |q|
    ensures OthersStay(validators, actions, ReportAll(actions, q, ops, targets))
  {
    forall v | v in validators
      ensures v.identity in ReportAll(actions, q, ops, targets)
    {
      QueuedSomewhere(l, validators, q, v);
      var i: nat :| i < |q| && q[i].validator == v;
      OneReported(l, validators, q, targets, actions, ops, i);
    }
    forall k | k in actions
      ensures k in ReportAll(actions, q, ops, targets)
      ensures (forall v :: v in validators ==> v.identity != k) ==>
                ReportAll(actions, q, ops, targets)[k] == actions[k]
    {
      if i: nat :| i < |q| && q[i].validator.identity == k {
        QueuedFromList(l, validators, q, i);
        OneReported(l, validators, q, targets, actions, ops, i);
      } else {
        ReportsNoOther(actions, q, ops, targets, k);
      }
    }
  }

  /** What the decision makes of the validator's two accounts. */
  ghost predicate Distributed(l: Ledger, l': Ledger, v: ValidatorStake, op: Op) {
    var stake, transient := StakeOf(v.voteAddress), TransientOf(v.voteAddress);
    match op
    case Adding(amount) =>
      SameAt(l, l', stake) && transient in l' && l'[transient] == Account(amount, Activating, Some(0))
    case Removing(amount) =>
      && BalanceAt(l', stake) == BalanceAt(l, stake) - amount
      && transient in l' && l'[transient].lamports == amount && l'[transient].activation == Deactivating
    case _ => SameAt(l, l', stake) && SameAt(l, l', transient)
  }

  lemma DistributionBatch(l: Ledger, validators: seq<ValidatorStake>, targets: Targets, reserve: nat)
    requires Distinct(validators) && forall v :: v in validators ==> ReadyToSplit(l, v)
    ensures var q := Queue(EntriesOf(l, validators));
            var batch := ToTransactions(Orders(q, |q|, targets, 0, reserve));
            && DistinctVotes(q) && AllReady(l, q)
            && Splittable(l, batch)
            && SumBy(batch, ReserveDebit) <= reserve
            && forall tx :: tx in batch ==> RespectsReserve(tx) && Spares(tx, validators)
  {
    QueueOfReady(l, validators);
    QueueGivesSplits(l, Queue(EntriesOf(l, validators)), targets, reserve);
    SplitsSpare(Queue(EntriesOf(l, validators)), targets, reserve, validators);
  }

  lemma QueueGivesSplits(l: Ledger, q: seq<Entry>, targets: Targets, reserve: nat)
    requires DistinctVotes(q) && AllReady(l, q)
    ensures var batch := ToTransactions(Orders(q, |q|, targets, 0, reserve));
            && Splittable(l, batch)
            && SumBy(batch, ReserveDebit) <= reserve
            && forall tx :: tx in batch ==> RespectsReserve(tx)
  {
    OrdersAreSplits(l, q, |q|, targets, reserve);
    DrawnIsSpent(q, |q|, targets, reserve);
    ReserveAccounting(q, |q|, targets, 0, reserve);
    SplitsRespectReserve(l, ToTransactions(Orders(q, |q|, targets, 0, reserve)));
  }

  lemma SplitsSpare(q: seq<Entry>, targets: Targets, reserve: nat, validators: seq<ValidatorStake>)
    requires forall i :: 0 <= i < |q| ==> q[i].validator in validators
    ensures forall tx :: tx in ToTransactions(Orders(q, |q|, targets, 0, reserve)) ==> Spares(tx, validators)
  {
    forall tx | tx in ToTransactions(Orders(q, |q|, targets, 0, reserve))
      ensures Spares(tx, validators)
    {
      var j := DecidedFor(q, targets, reserve, tx);
      assert q[j].validator in validators;
    }
  }

  lemma DistributionDone(
    l: Ledger, q: seq<Entry>, targets: Targets, reserve: nat, minimum: nat, landed: seq<Transaction>)
    requires DistinctVotes(q) && AllReady(l, q) && reserve == Available(l, minimum) && minimum > 0
    requires Splittable(l, ToTransactions(Orders(q, |q|, targets, 0, reserve)))
    requires Lands(l, landed) && multiset(landed) == multiset(ToTransactions(Orders(q, |q|, targets, 0, reserve)))
    ensures forall i :: 0 <= i < |q| ==>
              Distributed(l, Play(l, landed), q[i].validator, OpFor(q, i, targets, 0, reserve))
    ensures BalanceAt(Play(l, landed), Reserve) + Spent(q, |q|, targets, 0, reserve) == BalanceAt(l, Reserve)
  {
    DistributionPaid(l, q, targets, reserve, minimum, landed);
    forall i | 0 <= i < |q|
      ensures Distributed(l, Play(l, landed), q[i].validator, OpFor(q, i, targets, 0, reserve))
    {
      OneDistributed(l, q, targets, reserve, landed, i);
    }
  }

  /** The reserve pays for what is given, and for nothing else. */
  lemma DistributionPaid(
    l: Ledger, q: seq<Entry>, targets: Targets, reserve: nat, minimum: nat, landed: seq<Transaction>)
    requires DistinctVotes(q) && AllReady(l, q) && reserve == Available(l, minimum) && minimum > 0
    requires Lands(l, landed) && multiset(landed) == multiset(ToTransactions(Orders(q, |q|, targets, 0, reserve)))
    ensures BalanceAt(Play(l, landed), Reserve) + Spent(q, |q|, targets, 0, reserve) == BalanceAt(l, Reserve)
  {
    var batch := ToTransactions(Orders(q, |q|, targets, 0, reserve));
    QueueGivesSplits(l, q, targets, reserve);
    DrawnIsSpent(q, |q|, targets, reserve);
    SameElements(landed, batch);
    SumByPermutation(landed, batch, ReserveDebit);
    if Reserve in l {
      ReservePays(l, landed);
    } else {
      PlayMakesNoReserve(l, landed);
    }
  }

  lemma OneDistributed(l: Ledger, q: seq<Entry>, targets: Targets, reserve: nat, landed: seq<Transaction>, i: nat)
    requires i < |q| && DistinctVotes(q) && AllReady(l, q)
    requires Splittable(l, ToTransactions(Orders(q, |q|, targets, 0, reserve)))
    requires Lands(l, landed) && multiset(landed) == multiset(ToTransactions(Orders(q, |q|, targets, 0, reserve)))
    ensures Distributed(l, Play(l, landed), q[i].validator, OpFor(q, i, targets, 0, reserve))
  {
    OthersLeaveAlone(q, targets, reserve, i);
    if OrdersOf(q[i].validator, OpFor(q, i, targets, 0, reserve)) == [] {
      NoneDistributed(l, q, targets, reserve, landed, i);
    } else {
      var orders := Orders(q, |q|, targets, 0, reserve);
      var o := OrdersOf(q[i].validator, OpFor(q, i, targets, 0, reserve))[0];
      OrderIffDecided(q, |q|, targets, 0, reserve, o);
      InBatch(orders, o);
      OwnTransactionSettles(l, ToTransactions(orders), landed, q[i].validator, OpFor(q, i, targets, 0, reserve));
    }
  }

  lemma OwnTransactionSettles(l: Ledger, batch: seq<Transaction>, landed: seq<Transaction>, v: ValidatorStake, op: Op)
    requires OrdersOf(v, op) != [] && ToTransaction(OrdersOf(v, op)[0]) in batch
    requires ReadyToSplit(l, v) && Splittable(l, batch)
    requires Lands(l, landed) && multiset(landed) == multiset(batch)
    requires forall tx ::
               tx in batch && tx != ToTransaction(OrdersOf(v, op)[0]) ==> StakeOf(v.voteAddress) !in Touched(tx)
    ensures Distributed(l, Play(l, landed), v, op)
  {
    SameElements(batch, landed);
    SameElements(landed, batch);
    var tx := ToTransaction(OrdersOf(v, op)[0]);
    SplitSettles(l, batch, landed, tx);
    if op.Adding? {
      PlayFrame(l, landed, StakeOf(v.voteAddress));
      SplitsAreIndependent(l, batch);
      SubjectSettles(l, batch, landed, tx);
    }
  }

  lemma InBatch(orders: seq<Order>, o: Order)
    requires o in orders
    ensures ToTransaction(o) in ToTransactions(orders)
  {
    var k :| 0 <= k < |orders| && orders[k] == o;
    assert ToTransactions(orders)[k] == ToTransaction(o);
  }

  lemma NoneDistributed(l: Ledger, q: seq<Entry>, targets: Targets, reserve: nat, landed: seq<Transaction>, i: nat)
    requires i < |q| && DistinctVotes(q)
    requires multiset(landed) == multiset(ToTransactions(Orders(q, |q|, targets, 0, reserve)))
    requires OrdersOf(q[i].validator, OpFor(q, i, targets, 0, reserve)) == []
    ensures SameAt(l, Play(l, landed), StakeOf(q[i].validator.voteAddress))
    ensures SameAt(l, Play(l, landed), TransientOf(q[i].validator.voteAddress))
  {
    OthersLeaveAlone(q, targets, reserve, i);
    SameElements(landed, ToTransactions(Orders(q, |q|, targets, 0, reserve)));
    PlayFrame(l, landed, StakeOf(q[i].validator.voteAddress));
    PlayFrame(l, landed, TransientOf(q[i].validator.voteAddress));
  }

  /** Of the whole batch only the validator's own transaction names its accounts. */
  lemma OthersLeaveAlone(q: seq<Entry>, targets: Targets, reserve: nat, i: nat)
    requires i < |q| && DistinctVotes(q)
    ensures var v, op := q[i].validator, OpFor(q, i, targets, 0, reserve);
            forall tx :: tx in ToTransactions(Orders(q, |q|, targets, 0, reserve)) ==>
              || (OrdersOf(v, op) != [] && tx == ToTransaction(OrdersOf(v, op)[0]))
              || (StakeOf(v.voteAddress) !in Touched(tx) && TransientOf(v.voteAddress) !in Touched(tx))
  {
    forall tx | tx in ToTransactions(Orders(q, |q|, targets, 0, reserve))
      ensures var v, op := q[i].validator, OpFor(q, i, targets, 0, reserve);
              || (OrdersOf(v, op) != [] && tx == ToTransaction(OrdersOf(v, op)[0]))
              || (StakeOf(v.voteAddress) !in Touched(tx) && TransientOf(v.voteAddress) !in Touched(tx))
    {
      var j := DecidedFor(q, targets, reserve, tx);
      if j != i {
        assert q[if i < j then i else j].validator.voteAddress != q[if i < j then j else i].validator.voteAddress;
      }
    }
  }

  lemma DecidedFor(q: seq<Entry>, targets: Targets, reserve: nat, tx: Transaction) returns (j: nat)
    requires tx in ToTransactions(Orders(q, |q|, targets, 0, reserve))
    ensures j < |q|
    ensures var decided := OrdersOf(q[j].validator, OpFor(q, j, targets, 0, reserve));
            decided != [] && tx == ToTransaction(decided[0])
    ensures Touched(tx) <= {Reserve, StakeOf(q[j].validator.voteAddress), TransientOf(q[j].validator.voteAddress)}
  {
    var orders := Orders(q, |q|, targets, 0, reserve);
    var batch := ToTransactions(orders);
    var k :| 0 <= k < |batch| && batch[k] == tx;
    var o := orders[k];
    OrderIffDecided(q, |q|, targets, 0, reserve, o);
    j :| 0 <= j < |q| && OrdersOf(q[j].validator, OpFor(q, j, targets, 0, reserve)) == [o];
  }

  // ---------- Who is busy ----------

  /** Both accounts are delegated and have observed the same credits. */
  predicate SameCreditsObserved(a: Account, b: Account) {
    a.credits.Some? && a.credits == b.credits
  }

  ghost predicate BusyTransient(l: Ledger, v: ValidatorStake) {
    TransientOf(v.voteAddress) in l &&
    match l[TransientOf(v.voteAddress)].activation
    case Activating => true
    case Deactivating => true
    case Active =>
      StakeOf(v.voteAddress) in l && !SameCreditsObserved(l[StakeOf(v.voteAddress)], l[TransientOf(v.voteAddress)])
    case Inactive => false
  }

  ghost function BusyTransients(l: Ledger, desired: seq<ValidatorStake>): set<Pubkey> {
    set v | v in desired && BusyTransient(l, v) :: v.identity
  }

  ghost predicate ActiveStake(l: Ledger, v: ValidatorStake) {
    StakeOf(v.voteAddress) in l && l[StakeOf(v.voteAddress)].activation.Active?
  }

  ghost function WithoutActiveStake(l: Ledger, desired: seq<ValidatorStake>): set<Pubkey> {
    set v | v in desired && !ActiveStake(l, v) :: v.identity
  }

  predicate IsCreating(actions: Actions, identity: Pubkey) {
    identity in actions && actions[identity] == CreatingStakeAccount
  }

  /** Both accounts of every one of the validators end up as decided, and the reserve pays for it. */
  ghost predicate AllDistributed(
    l: Ledger, l': Ledger, validators: seq<ValidatorStake>, targets: Targets, reserve: nat)
  {
    var q := Queue(EntriesOf(l, validators));
    && (forall i :: 0 <= i < |q| ==> Distributed(l, l', q[i].validator, OpFor(q, i, targets, 0, reserve)))
    && BalanceAt(l', Reserve) + Spent(q, |q|, targets, 0, reserve) == BalanceAt(l, Reserve)
  }
}
