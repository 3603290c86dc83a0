/** The rebalancing protocol of stake_pool_v0.rs: one `Apply` per epoch merges what it can back,
    creates missing stake accounts, and then splits stake off into transient accounts that next
    epoch's `Apply` merges again. */
module StakePoolV0 {
  import opened Collections
  import opened StakeTypes
  import opened StakeAllocator
  import opened StakeLedger
  import opened StakeBatches
  import opened StakePhases
  import opened StakeLevels

  const TWO_TO_THE_64: nat := 0x1_0000_0000_0000_0000

  datatype Outcome = Outcome(actions: Actions, unfunded: set<Pubkey>)

  // ---------- Targets ----------

  /** The lamports to hand out. The subtraction is on 64-bit integers and wraps around. */
  function TotalStakeAmount(allStake: nat, minimum: nat): nat
    requires allStake < TWO_TO_THE_64 && minimum < TWO_TO_THE_64
  {
    if allStake >= minimum then allStake - minimum else allStake + TWO_TO_THE_64 - minimum
  }

  function BonusTarget(total: nat, minCount: nat, baselineCount: nat, bonusCount: nat, baseline: nat): nat {
    var committed := minCount * MIN_STAKE_ACCOUNT_BALANCE + baselineCount * baseline;
    if bonusCount == 0 then 0 else (if total >= committed then total - committed else 0) / bonusCount
  }

  /** The targets of all validators together fit in the pool exactly when it covers the minimum and
      baseline levels, and then fewer lamports are left over than there are Bonus validators. */
  lemma TargetsFitIffCovered(total: nat, minCount: nat, baselineCount: nat, bonusCount: nat, baseline: nat)
    ensures var committed := minCount * MIN_STAKE_ACCOUNT_BALANCE + baselineCount * baseline;
            var targets := committed + bonusCount * BonusTarget(total, minCount, baselineCount, bonusCount, baseline);
            && (targets <= total <==> committed <= total)
            && (committed <= total && bonusCount > 0 ==> total - bonusCount < targets)
            && (committed >= total || bonusCount == 0 ==> targets == committed)
  {
    var committed := minCount * MIN_STAKE_ACCOUNT_BALANCE + baselineCount * baseline;
    if bonusCount > 0 && total >= committed {
      var shared := total - committed;
      assert shared == bonusCount * (shared / bonusCount) + shared % bonusCount;
    }
  }

  /** The baseline check is a check of what the pool has above its required reserve. */
  predicate ChecksSurplus(total: nat, minimum: nat, committed: nat)
    requires total < TWO_TO_THE_64 && minimum < TWO_TO_THE_64
  {
    committed <= TotalStakeAmount(total, minimum) <==> minimum + committed <= total
  }

  /** That is so for every baseline exactly if the pool has its required reserve. */
  lemma ChecksSurplusIff(total: nat, minimum: nat)
    requires total < TWO_TO_THE_64 && minimum < TWO_TO_THE_64
    ensures (forall committed: nat :: ChecksSurplus(total, minimum, committed)) <==> minimum <= total
  {
    if total < minimum {
      assert !ChecksSurplus(total, minimum, 1);
    }
  }

  /** For which amounts the wrapped total lets an uncovered baseline pass. */
  lemma UncoveredBaselinePassesIff(total: nat, minimum: nat, committed: nat)
    requires total < TWO_TO_THE_64 && minimum < TWO_TO_THE_64
    ensures committed <= TotalStakeAmount(total, minimum) && total < minimum + committed
            <==> total < minimum && committed <= total + TWO_TO_THE_64 - minimum
  {
  }

  /** An empty pool passes the check for a Baseline validator. */
  lemma EmptyPoolCoversBaseline(v: ValidatorStake)
    requires v.stakeState == Baseline
    ensures Total(map[]) == 0
    ensures BaselineCovered(map[], [v], MIN_STAKE_ACCOUNT_BALANCE, MIN_STAKE_CHANGE_AMOUNT)
  {
    assert [v][..0] == [];
    assert CountAt([v], Baseline) == 1;
  }

  /** Nothing is drawn from the reserve on a total that has wrapped around. */
  lemma WrappedTotalDrawsNothing(l: Ledger, minimum: nat)
    requires Total(l) < minimum
    ensures Available(l, minimum) == 0
  {
    if Reserve in l {
      TotalWithout(l, Reserve);
    }
  }

  // ---------- The pool ----------

  /** What was read and done where the stake is handed out. */
  datatype Distribution = Distribution(
    ledger: Ledger, totalRead: nat, minReserve: nat, baseline: nat, busy: set<Pubkey>, rejected: set<Rejection>)

  datatype EpochInput = EpochInput(
    dryRun: bool, desired: seq<ValidatorStake>, slow: set<Address>, credits: map<Address, nat>)

  /** The stake is handed out on correct numbers, to validators that can take it. */
  ghost predicate SoundDistribution(d: Distribution, desired: seq<ValidatorStake>) {
    && d.totalRead == Total(d.ledger)
    && (forall v :: v in desired && v.identity !in d.busy ==> ReadyToSplit(d.ledger, v))
    && d.rejected == {}
  }

  /** The stake for each Bonus validator. */
  function BonusOf(allStake: nat, desired: seq<ValidatorStake>, minimum: nat, baseline: nat): nat
    requires allStake < TWO_TO_THE_64 && minimum < TWO_TO_THE_64
  {
    BonusTarget(TotalStakeAmount(allStake, minimum), CountAt(desired, NoStake), CountAt(desired, Baseline),
                CountAt(desired, Bonus), baseline)
  }

  /** The amounts of the levels. */
  function LevelsOf(allStake: nat, desired: seq<ValidatorStake>, minimum: nat, baseline: nat): Targets
    requires allStake < TWO_TO_THE_64 && minimum < TWO_TO_THE_64
  {
    Targets(MIN_STAKE_ACCOUNT_BALANCE, baseline, BonusOf(allStake, desired, minimum, baseline))
  }

  function TargetsOf(d: Distribution, desired: seq<ValidatorStake>): Targets
    requires d.totalRead < TWO_TO_THE_64 && d.minReserve < TWO_TO_THE_64
  {
    LevelsOf(d.totalRead, desired, d.minReserve, d.baseline)
  }

  /** Every validator that was not busy ends up as decided from the ledger and the targets. */
  ghost predicate HandedOut(d: Distribution, l': Ledger, desired: seq<ValidatorStake>)
    requires d.totalRead < TWO_TO_THE_64 && d.minReserve < TWO_TO_THE_64
  {
    AllDistributed(d.ledger, l', NotBusy(desired, d.busy), TargetsOf(d, desired), Available(d.ledger, d.minReserve))
  }

  /** What is reported: the decision for every validator that was not busy, who goes without, and why the
      others were busy. */
  ghost predicate ReportedAsDone(l: Ledger, d: Distribution, outcome: Outcome, desired: seq<ValidatorStake>)
    requires d.totalRead < TWO_TO_THE_64 && d.minReserve < TWO_TO_THE_64
  {
    && Reported(d.ledger, NotBusy(desired, d.busy), TargetsOf(d, desired), Available(d.ledger, d.minReserve),
                outcome.actions, outcome.unfunded)
    && BusyReported(l, desired, outcome.actions)
  }

  class StakePool {
    const cluster: Cluster
    const baselineStakeAmount: nat
    const minReserveStakeBalance: nat

    constructor (cluster: Cluster, baselineStakeAmount: nat, minReserveStakeBalance: nat)
      requires baselineStakeAmount >= MIN_STAKE_CHANGE_AMOUNT && minReserveStakeBalance >= MIN_STAKE_ACCOUNT_BALANCE
      ensures this.cluster == cluster && Valid()
      ensures this.baselineStakeAmount == baselineStakeAmount && this.minReserveStakeBalance == minReserveStakeBalance
    {
      this.cluster := cluster;
      this.baselineStakeAmount := baselineStakeAmount;
      this.minReserveStakeBalance := minReserveStakeBalance;
    }

    ghost predicate Valid() {
      baselineStakeAmount >= MIN_STAKE_CHANGE_AMOUNT && minReserveStakeBalance >= MIN_STAKE_ACCOUNT_BALANCE
    }

    /** The amounts are checked before there is a pool. */
    static method New(cluster: Cluster, baselineStakeAmount: nat, minReserveStakeBalance: nat)
      returns (r: Result<StakePool, Error>)
      ensures r.Ok? <==>
                baselineStakeAmount >= MIN_STAKE_CHANGE_AMOUNT && minReserveStakeBalance >= MIN_STAKE_ACCOUNT_BALANCE
      ensures r.Ok? ==> r.value.Valid() && r.value.cluster == cluster && fresh(r.value)
    {
      if baselineStakeAmount < MIN_STAKE_CHANGE_AMOUNT {
        return Err(BaselineTooSmall);
      }
      if minReserveStakeBalance < MIN_STAKE_ACCOUNT_BALANCE {
        return Err(MinimumReserveTooSmall);
      }
      var pool := new StakePool(cluster, baselineStakeAmount, minReserveStakeBalance);
      r := Ok(pool);
    }

    ghost predicate Kept(l: Ledger, l': Ledger) {
      KeptLedger(l, l', minReserveStakeBalance)
    }

    lemma BatchKept(l: Ledger, batch: seq<Transaction>, landed: seq<Transaction>)
      requires Valid()
      requires forall tx :: tx in batch ==> RespectsReserve(tx)
      requires SumBy(batch, ReserveDebit) <= Available(l, minReserveStakeBalance)
      requires multiset(landed) <= multiset(batch)
      ensures Kept(l, Play(l, landed))
    {
      PlayConserves(l, landed);
      PartOfBatchKeepsReserve(l, batch, landed, minReserveStakeBalance);
    }

    /** Accounts at addresses that no validator of the list uses go back to the reserve: active ones
        are deactivated now, inactive ones are merged. */
    method MergeOrphanedStakeAccounts(sources: set<Address>) returns (ok: bool)
      requires Valid() && sources <= cluster.accounts.Keys && Reserve !in sources && ReserveIdle(cluster.accounts)
      modifies cluster
      ensures Kept(old(cluster.accounts), cluster.accounts)
      ensures forall a :: a !in sources && a != Reserve ==> SameAt(old(cluster.accounts), cluster.accounts, a)
      ensures ok ==> AllOrphansHandled(old(cluster.accounts), cluster.accounts, sources)
      ensures ok ==> OrphansTakeable(old(cluster.accounts), sources)
      ensures cluster.rejections >= old(cluster.rejections)
      ensures OrphansTakeable(old(cluster.accounts), sources) ==> cluster.rejections == old(cluster.rejections)
      ensures cluster.failures == old(cluster.failures) + (if ok then 0 else 1)
    {
      ghost var l := cluster.accounts;
      var transactions := PlanOrphans(cluster.accounts, sources);
      ghost var landed, rejected;
      ok, landed, rejected := cluster.SendAndConfirm(transactions);
      OrphansSent(l, sources, transactions, minReserveStakeBalance, landed, rejected);
      BatchKept(l, transactions, landed);
    }

    /** A transient account that is still warming up or cooling down, or whose credits differ from
        those of the stake account, makes its validator busy; otherwise it is merged. */
    method MergeTransientStakeAccounts(desired: seq<ValidatorStake>, actions: Actions)
      returns (r: Result<Actions, Error>)
      requires Valid() && Distinct(desired) && ReserveIdle(cluster.accounts)
      modifies cluster
      ensures Kept(old(cluster.accounts), cluster.accounts)
      ensures r.Err? ==> r.error in {InvalidStakeAccount, TransientMergeFailed}
      ensures r == Err(InvalidStakeAccount) <==> SomeDangling(old(cluster.accounts), desired)
      ensures r == Err(InvalidStakeAccount) ==> cluster.accounts == old(cluster.accounts)
      ensures cluster.failures == old(cluster.failures) + (if r == Err(TransientMergeFailed) then 1 else 0)
      ensures ForeignSame(old(cluster.accounts), cluster.accounts, desired)
      ensures r.Ok? ==> TransientsMerged(old(cluster.accounts), cluster.accounts, desired, actions, r.value)
      ensures r.Ok? ==> TransientsTakeable(old(cluster.accounts), desired)
      ensures cluster.rejections >= old(cluster.rejections)
      ensures TransientsTakeable(old(cluster.accounts), desired) ==> cluster.rejections == old(cluster.rejections)
    {
      ghost var l := cluster.accounts;
      var transactions;
      r, transactions := PlanMerges(cluster.accounts, desired, actions);
      if r.Err? {
        return;
      }
      var ok;
      ghost var landed, rejected;
      ok, landed, rejected := cluster.SendAndConfirm(transactions);
      MergesSent(l, desired, transactions, minReserveStakeBalance, landed, rejected);
      BatchKept(l, transactions, landed);
      if !ok {
        return Err(TransientMergeFailed);
      }
      MergeBatchDone(l, desired, transactions, landed, actions, r.value);
    }

    /** Every validator without an active stake account is busy: it gets one from the reserve while
        the reserve lasts, an inactive one is delegated again, and otherwise it waits. */
    method CreateValidatorStakeAccounts(desired: seq<ValidatorStake>, actions: Actions)
      returns (r: Result<Actions, Error>)
      requires Valid() && Distinct(desired) && ReserveIdle(cluster.accounts)
      modifies cluster
      ensures Kept(old(cluster.accounts), cluster.accounts)
      ensures r.Err? ==> r.error == CreationFailed
      ensures cluster.rejections == old(cluster.rejections)
      ensures cluster.failures == old(cluster.failures) + (if r.Ok? then 0 else 1)
      ensures ForeignSame(old(cluster.accounts), cluster.accounts, desired)
      ensures r.Ok? ==> StakesCreated(old(cluster.accounts), cluster.accounts, desired, actions, r.value)
      ensures r.Ok? ==>
                CreationsExhaust(old(cluster.accounts), cluster.accounts, desired, r.value, minReserveStakeBalance)
    {
      ghost var l := cluster.accounts;
      var busy, transactions := PlanCreations(cluster.accounts, desired, actions, minReserveStakeBalance);
      var ok;
      ghost var landed, rejected;
      ok, landed, rejected := cluster.SendAndConfirm(transactions);
      CreationsSent(l, desired, busy, transactions, minReserveStakeBalance, landed, rejected);
      BatchKept(l, transactions, landed);
      if !ok {
        return Err(CreationFailed);
      }
      CreationBatchDone(l, desired, actions, busy, transactions, landed);
      CreationsPaid(l, desired, busy, transactions, landed, minReserveStakeBalance);
      r := Ok(busy);
    }

    /** Hands out the stake. The method relies on what `Apply` has established: stake can be split off
        for each of the validators; and then none of its transactions can be rejected. */
    method DistributeValidatorStake(
      dryRun: bool, validators: seq<ValidatorStake>, reserveStakeBalance: nat, bonusStakeAmount: nat, actions: Actions)
      returns (r: Result<Outcome, Error>, ghost rejected: set<Rejection>)
      requires Valid() && Distinct(validators) && ReserveIdle(cluster.accounts)
      requires forall v :: v in validators ==> ReadyToSplit(cluster.accounts, v)
      requires reserveStakeBalance == Available(cluster.accounts, minReserveStakeBalance)
      modifies cluster
      ensures Kept(old(cluster.accounts), cluster.accounts)
      ensures rejected == {} && cluster.rejections == old(cluster.rejections)
      ensures r.Err? ==> r.error == DistributionFailed
      ensures cluster.failures == old(cluster.failures) + (if r.Ok? then 0 else 1)
      ensures ForeignSame(old(cluster.accounts), cluster.accounts, validators)
      ensures dryRun ==> r.Ok? && cluster.accounts == old(cluster.accounts)
      ensures r.Ok? ==>
                StakeDistributed(
                  old(cluster.accounts), cluster.accounts, dryRun, validators,
                  Targets(MIN_STAKE_ACCOUNT_BALANCE, baselineStakeAmount, bonusStakeAmount), reserveStakeBalance,
                  actions, r.value.actions, r.value.unfunded)
      ensures r.Ok? ==>
                forall v :: v in validators ==>
                  ReportedAtLevel(r.value.actions, r.value.unfunded, v,
                    BalanceAt(old(cluster.accounts), StakeOf(v.voteAddress)), baselineStakeAmount, bonusStakeAmount)
      ensures r.Ok? && !dryRun ==>
                forall v :: v in validators ==>
                  BroughtToLevel(cluster.accounts, v, BalanceAt(old(cluster.accounts), StakeOf(v.voteAddress)),
                    baselineStakeAmount, bonusStakeAmount)
    {
      ghost var l := cluster.accounts;
      var targets := Targets(MIN_STAKE_ACCOUNT_BALANCE, baselineStakeAmount, bonusStakeAmount);
      var q, ops, orders, unfunded, remaining :=
        StakeAllocator.DistributeValidatorStake(EntriesOf(cluster.accounts, validators), targets, 0,
          reserveStakeBalance);
      var transactions := ToTransactions(orders);
      var newActions := ReportAll(actions, q, ops, targets);
      DistributionBatch(l, validators, targets, reserveStakeBalance);
      rejected := {};
      if !dryRun {
        var ok;
        ghost var landed, turnedDown;
        ok, landed, turnedDown := cluster.SendAndConfirm(transactions);
        BatchKept(l, transactions, landed);
        ForeignFrame(l, transactions, landed, validators);
        forall t | t in turnedDown
          ensures false
        {
          SplitNeverRejected(l, transactions, minReserveStakeBalance, t);
        }
        rejected := turnedDown;
        if !ok {
          return Err(DistributionFailed), rejected;
        }
        DistributionDone(l, q, targets, reserveStakeBalance, minReserveStakeBalance, landed);
      }
      DecisionsReported(l, validators, targets, reserveStakeBalance, actions, ops);
      AllAtTheirLevels(l, cluster.accounts, dryRun, validators, targets, reserveStakeBalance, newActions, unfunded);
      r := Ok(Outcome(newActions, unfunded));
    }

    /** The phases before the stake is handed out, and what they read of the pool and of the list. */
    method Prepare(desired: seq<ValidatorStake>)
      returns (r: Result<Actions, Error>, allStake: nat, minCount: nat, baselineCount: nat, bonusCount: nat)
      requires Valid() && Distinct(desired) && ReserveIdle(cluster.accounts)
      modifies cluster
      ensures Kept(old(cluster.accounts), cluster.accounts)
      ensures r.Err? ==> r.error in {InvalidStakeAccount, OrphanMergeFailed, TransientMergeFailed, CreationFailed}
      ensures r == Err(InvalidStakeAccount) ==> SomeDangling(old(cluster.accounts), desired)
      ensures cluster.failures == old(cluster.failures) + (if r.Ok? || r.error == InvalidStakeAccount then 0 else 1)
      ensures r.Ok? ==> Prepared(old(cluster.accounts), cluster.accounts, desired, r.value)
      ensures r.Ok? ==> BusyReported(old(cluster.accounts), desired, r.value)
      ensures r.Ok? ==>
                AccountsPrepared(old(cluster.accounts), cluster.accounts, desired, r.value, minReserveStakeBalance)
      ensures r.Ok? ==> MergesTakeable(old(cluster.accounts), desired)
      ensures cluster.rejections >= old(cluster.rejections)
      ensures MergesTakeable(old(cluster.accounts), desired) ==> cluster.rejections == old(cluster.rejections)
      ensures SomeDangling(old(cluster.accounts), desired) ==>
                r.Err? && forall v :: v in desired ==> ListedSame(old(cluster.accounts), cluster.accounts, v)
      ensures allStake == Total(old(cluster.accounts)) && minCount == CountAt(desired, NoStake)
      ensures baselineCount == CountAt(desired, Baseline) && bonusCount == CountAt(desired, Bonus)
    {
      ghost var l := cluster.accounts;
      var inuse, allAddresses;
      inuse, minCount, baselineCount, bonusCount := Survey(desired);
      allAddresses, allStake := cluster.GetAllStake();
      assert allAddresses - inuse == Orphans(l, desired);
      var orphansOk := MergeOrphanedStakeAccounts(allAddresses - inuse);
      ghost var afterOrphans := cluster.accounts;
      ListedBefore(l, afterOrphans, desired, inuse);
      if !orphansOk {
        return Err(OrphanMergeFailed), allStake, minCount, baselineCount, bonusCount;
      }
      r := MergeTransientStakeAccounts(desired, map[]);
      if r.Err? {
        return;
      }
      ghost var afterMerges, transients := cluster.accounts, r.value;
      r := CreateValidatorStakeAccounts(desired, r.value);
      if r.Err? {
        return;
      }
      AllForeignSame(afterOrphans, afterMerges, cluster.accounts, desired);
      ReportedByPhases(l, afterOrphans, afterMerges, cluster.accounts, desired, transients, r.value);
      PreparedByPhases(l, afterOrphans, afterMerges, cluster.accounts, desired, transients, r.value);
      AccountsByPhases(l, afterOrphans, afterMerges, cluster.accounts, desired, transients, r.value,
                       minReserveStakeBalance);
    }

    /** One epoch of the pool. */
    method Apply(dryRun: bool, desired: seq<ValidatorStake>)
      returns (r: Result<Outcome, Error>, ghost reached: Option<Distribution>)
      requires Valid() && Distinct(desired) && ReserveIdle(cluster.accounts)
      requires Total(cluster.accounts) < TWO_TO_THE_64 && minReserveStakeBalance < TWO_TO_THE_64
      modifies cluster
      ensures cluster.failures >= old(cluster.failures) && cluster.rejections >= old(cluster.rejections)
      ensures AsPromised(
                Epoch(old(cluster.accounts), cluster.accounts, cluster.failures - old(cluster.failures),
                  cluster.rejections - old(cluster.rejections), r, reached),
                dryRun, desired, minReserveStakeBalance, baselineStakeAmount)
    {
      ghost var l, failures, rejections := cluster.accounts, cluster.failures, cluster.rejections;
      var prepared, allStake, minCount, baselineCount, bonusCount := Prepare(desired);
      if prepared.Err? {
        r, reached := Err(prepared.error), None;
        StoppedEarly(
          Epoch(l, cluster.accounts, cluster.failures - failures, cluster.rejections - rejections, r, reached),
          dryRun, desired, minReserveStakeBalance, baselineStakeAmount);
      } else {
        r, reached := HandOut(dryRun, desired, prepared.value, allStake, minCount, baselineCount, bonusCount, l);
      }
    }

    /** The rest of an epoch that began with the ledger `l`. */
    method HandOut(
      dryRun: bool, desired: seq<ValidatorStake>, actions: Actions,
      allStake: nat, minCount: nat, baselineCount: nat, bonusCount: nat, ghost l: Ledger)
      returns (r: Result<Outcome, Error>, ghost reached: Option<Distribution>)
      requires Valid() && ReserveIdle(cluster.accounts) && Kept(l, cluster.accounts)
      requires allStake == Total(l) < TWO_TO_THE_64 && minReserveStakeBalance < TWO_TO_THE_64
      requires Distinct(desired) && Prepared(l, cluster.accounts, desired, actions)
      requires BusyReported(l, desired, actions) && !SomeDangling(l, desired) && MergesTakeable(l, desired)
      requires AccountsPrepared(l, cluster.accounts, desired, actions, minReserveStakeBalance)
      requires minCount == CountAt(desired, NoStake)
      requires baselineCount == CountAt(desired, Baseline) && bonusCount == CountAt(desired, Bonus)
      modifies cluster
      ensures cluster.failures >= old(cluster.failures) && cluster.rejections >= old(cluster.rejections)
      ensures AsPromised(
                Epoch(l, cluster.accounts, cluster.failures - old(cluster.failures),
                  cluster.rejections - old(cluster.rejections), r, reached),
                dryRun, desired, minReserveStakeBalance, baselineStakeAmount)
    {
      ghost var failures, rejections, ledger := cluster.failures, cluster.rejections, cluster.accounts;
      var totalStakeAmount := TotalStakeAmount(allStake, minReserveStakeBalance);
      if totalStakeAmount < TotalBaseline(baselineCount, baselineStakeAmount) {
        r, reached := Err(NotEnoughStakeToCoverBaseline), None;
        StoppedEarly(
          Epoch(l, cluster.accounts, 0, 0, r, reached), dryRun, desired, minReserveStakeBalance, baselineStakeAmount);
        return;
      }
      var bonus := BonusTarget(totalStakeAmount, minCount, baselineCount, bonusCount, baselineStakeAmount);
      var available := Available(cluster.accounts, minReserveStakeBalance);
      var validators := NotBusy(desired, actions.Keys);
      ghost var rejected;
      r, rejected := DistributeValidatorStake(dryRun, validators, available, bonus, actions);
      reached := Some(
        Distribution(ledger, allStake, minReserveStakeBalance, baselineStakeAmount, actions.Keys, rejected));
      ghost var e :=
        Epoch(l, cluster.accounts, cluster.failures - failures, cluster.rejections - rejections, r, reached);
      assert r.Ok? ==> DoneAsDecided(e, reached.value, dryRun, desired, actions);
      HandedOutInFull(e, dryRun, desired, minReserveStakeBalance, baselineStakeAmount, actions);
    }

    /** The pool over many epochs, with a new list of validators in each one, and whatever happens to
        the transactions and to the accounts between the epochs: every epoch is as promised, and
        nothing is lost over the whole run. The history is that of the run: it gives the outcomes that
        are returned, and accounts for every batch that failed. */
    method RunOfEpochs(epochs: seq<EpochInput>)
      returns (outcomes: seq<Result<Outcome, Error>>, ghost history: seq<Epoch>)
      requires Valid() && ReserveIdle(cluster.accounts)
      requires Total(cluster.accounts) < TWO_TO_THE_64 && minReserveStakeBalance < TWO_TO_THE_64
      requires forall e :: e in epochs ==> Distinct(e.desired)
      modifies cluster
      ensures Kept(old(cluster.accounts), cluster.accounts)
      ensures Recorded(old(cluster.accounts), cluster.accounts, epochs, history, minReserveStakeBalance,
                baselineStakeAmount)
      ensures outcomes == Outcomes(history)
      ensures cluster.failures == old(cluster.failures) + SumBy(history, FailuresOf)
      ensures cluster.rejections == old(cluster.rejections) + SumBy(history, RejectionsOf)
    {
      outcomes, history := [], [];
      for i := 0 to |epochs|
        invariant Kept(old(cluster.accounts), cluster.accounts)
        invariant Recorded(
                    old(cluster.accounts), cluster.accounts, epochs[..i], history, minReserveStakeBalance,
                      baselineStakeAmount)
        invariant outcomes == Outcomes(history)
        invariant cluster.failures == old(cluster.failures) + SumBy(history, FailuresOf)
        invariant cluster.rejections == old(cluster.rejections) + SumBy(history, RejectionsOf)
      {
        var outcome;
        outcome, history := OneMoreEpoch(epochs, i, old(cluster.accounts), history);
        outcomes := outcomes + [outcome];
      }
      assert epochs[..|epochs|] == epochs;
    }

    /** One more epoch of a run that began with the ledger `l`. */
    method OneMoreEpoch(epochs: seq<EpochInput>, i: nat, ghost l: Ledger, ghost history: seq<Epoch>)
      returns (outcome: Result<Outcome, Error>, ghost history': seq<Epoch>)
      requires i < |epochs| && Valid() && Distinct(epochs[i].desired) && ReserveIdle(cluster.accounts)
      requires Total(cluster.accounts) < TWO_TO_THE_64 && minReserveStakeBalance < TWO_TO_THE_64
      requires Kept(l, cluster.accounts)
      requires Recorded(l, cluster.accounts, epochs[..i], history, minReserveStakeBalance, baselineStakeAmount)
      modifies cluster
      ensures Kept(l, cluster.accounts)
      ensures Recorded(l, cluster.accounts, epochs[..i + 1], history', minReserveStakeBalance, baselineStakeAmount)
      ensures Outcomes(history') == Outcomes(history) + [outcome]
      ensures cluster.failures + SumBy(history, FailuresOf) == old(cluster.failures) + SumBy(history', FailuresOf)
      ensures cluster.rejections + SumBy(history, RejectionsOf)
           == old(cluster.rejections) + SumBy(history', RejectionsOf)
    {
      var input := epochs[i];
      ghost var before, failures, rejections := cluster.accounts, cluster.failures, cluster.rejections;
      ghost var reached;
      outcome, reached := Apply(input.dryRun, input.desired);
      ghost var epoch := Epoch(before, cluster.accounts, cluster.failures - failures,
        cluster.rejections - rejections, outcome, reached);
      cluster.AdvanceEpoch(input.slow, input.credits);
      LinkOneMore(l, cluster.accounts, epochs, i, history, epoch, minReserveStakeBalance);
      PromiseOneMore(epochs, i, history, epoch, minReserveStakeBalance, baselineStakeAmount);
      HistoryOneMore(history, epoch);
      history' := history + [epoch];
    }
  }

  // ---------- What an epoch promises ----------

  /** An epoch as it went: the ledger before and after it, the number of batches that failed in it, and
      what was read and done where the stake was handed out, if that was reached. */
  datatype Epoch = Epoch(
    before: Ledger, after: Ledger, failures: nat, rejections: nat, outcome: Result<Outcome, Error>,
    reached: Option<Distribution>)

  function FailuresOf(e: Epoch): nat {
    e.failures
  }

  function RejectionsOf(e: Epoch): nat {
    e.rejections
  }

  function Outcomes(history: seq<Epoch>): (outcomes: seq<Result<Outcome, Error>>)
    ensures |outcomes| == |history|
  {
    seq(|history|, i requires 0 <= i < |history| => history[i].outcome)
  }

  lemma HistoryOneMore(history: seq<Epoch>, e: Epoch)
    ensures Outcomes(history + [e]) == Outcomes(history) + [e.outcome]
    ensures SumBy(history + [e], FailuresOf) == SumBy(history, FailuresOf) + e.failures
    ensures SumBy(history + [e], RejectionsOf) == SumBy(history, RejectionsOf) + e.rejections
  {
    assert (history + [e])[..|history|] == history;
  }

  /** What no phase may break, landed in full or in part. */
  ghost predicate KeptLedger(l: Ledger, l': Ledger, minimum: nat) {
    && Total(l') == Total(l) && ReserveKept(l, l', minimum)
    && (Reserve in l' ==> Reserve in l) && (ReserveIdle(l) ==> ReserveIdle(l'))
  }

  lemma KeptTransitive(l: Ledger, l': Ledger, l'': Ledger, minimum: nat)
    requires KeptLedger(l, l', minimum) && KeptLedger(l', l'', minimum)
    ensures KeptLedger(l, l'', minimum)
  {
  }

  lemma AdvancedKept(l: Ledger, slow: set<Address>, credits: map<Address, nat>, minimum: nat)
    ensures KeptLedger(l, Advanced(l, slow, credits), minimum)
  {
    SumSetSame(l.Keys, LamportsAt(l), LamportsAt(Advanced(l, slow, credits)));
  }

  function TotalBaseline(count: nat, baseline: nat): nat {
    count * baseline
  }

  ghost predicate BaselineCovered(l: Ledger, desired: seq<ValidatorStake>, minimum: nat, baseline: nat)
    requires Total(l) < TWO_TO_THE_64 && minimum < TWO_TO_THE_64
  {
    TotalBaseline(CountAt(desired, Baseline), baseline) <= TotalStakeAmount(Total(l), minimum)
  }

  /** The baseline is covered if the pool holds it beyond its required reserve, or does not even hold that
      and the baseline is covered by what wraps around. */
  lemma BaselineCoveredIff(l: Ledger, desired: seq<ValidatorStake>, minimum: nat, baseline: nat)
    requires Total(l) < TWO_TO_THE_64 && minimum < TWO_TO_THE_64
    ensures var committed := CountAt(desired, Baseline) * baseline;
            BaselineCovered(l, desired, minimum, baseline) <==>
              if Total(l) >= minimum then minimum + committed <= Total(l)
              else committed <= Total(l) + TWO_TO_THE_64 - minimum
  {
  }

  /** Nothing is lost and the reserve is not overdrawn. Unless a batch fails, and then it is the last
      one, the epoch ends well exactly when no listed validator has a dangling transient account and
      the baseline is covered. No transaction is rejected if the merges can all be taken, and if they
      cannot, the epoch does not get past them. */
  ghost predicate AsPromised(e: Epoch, dryRun: bool, desired: seq<ValidatorStake>, minimum: nat, baseline: nat)
    requires Total(e.before) < TWO_TO_THE_64 && minimum < TWO_TO_THE_64
  {
    && KeptLedger(e.before, e.after, minimum)
    && e.failures == (if e.outcome.Err? && e.outcome.error in BATCH_ERRORS then 1 else 0)
    && (e.outcome.Err? && e.outcome.error !in BATCH_ERRORS ==>
          e.outcome.error == if SomeDangling(e.before, desired) then InvalidStakeAccount
            else NotEnoughStakeToCoverBaseline)
    && (e.outcome == Err(NotEnoughStakeToCoverBaseline) ==> !BaselineCovered(e.before, desired, minimum, baseline))
    && (MergesTakeable(e.before, desired) ==> e.rejections == 0)
    && (e.outcome.Ok? || e.outcome.error == NotEnoughStakeToCoverBaseline ==> MergesTakeable(e.before, desired))
    && (e.reached.Some? <==> e.outcome.Ok? || e.outcome.error == DistributionFailed)
    && (e.reached.Some? ==>
          && !SomeDangling(e.before, desired) && MergesTakeable(e.before, desired)
          && BaselineCovered(e.before, desired, minimum, baseline)
          && DistributedAsPromised(e, e.reached.value, desired, minimum, baseline))
    && (e.outcome.Ok? && !dryRun ==> HandedOut(e.reached.value, e.after, desired))
    && (e.outcome.Ok? && dryRun ==> e.after == e.reached.value.ledger)
    && (e.outcome.Ok? ==> ReportedAsDone(e.before, e.reached.value, e.outcome.value, desired))
    && (e.outcome.Ok? ==>
          (forall v :: v in desired ==> v.identity in e.outcome.value.actions)
          && AllOrphansHandled(e.before, e.after, Orphans(e.before, desired))
          && AccountsPrepared(e.before, e.reached.value.ledger, desired, e.outcome.value.actions, minimum)
          && BusyLeftAlone(e.reached.value, e.after, desired))
    && (SomeDangling(e.before, desired) ==> forall v :: v in desired ==> ListedSame(e.before, e.after, v))
  }

  /** The stake program takes every merge that the epoch begins with. */
  ghost predicate MergesTakeable(l: Ledger, desired: seq<ValidatorStake>) {
    OrphansTakeable(l, Orphans(l, desired)) && TransientsTakeable(l, desired)
  }

  const BATCH_ERRORS := {OrphanMergeFailed, TransientMergeFailed, CreationFailed, DistributionFailed}

  /** Where the stake is handed out, the total read at the start is still the total of the ledger, the
      busy validators are exactly those with a transient account that cannot be merged or without
      active stake, stake can be split off for all others, and no transaction is rejected. */
  ghost predicate DistributedAsPromised(
    e: Epoch, d: Distribution, desired: seq<ValidatorStake>, minimum: nat, baseline: nat)
  {
    && KeptLedger(e.before, d.ledger, minimum) && KeptLedger(d.ledger, e.after, minimum)
    && d.minReserve == minimum && d.baseline == baseline
    && d.busy == BusyTransients(e.before, desired) + WithoutActiveStake(e.before, desired)
    && SoundDistribution(d, desired)
  }

  /** What the phases before the stake is handed out have made of the listed validators' accounts. */
  ghost predicate AccountsPrepared(
    l: Ledger, l': Ledger, desired: seq<ValidatorStake>, actions: Actions, minimum: nat)
  {
    && (forall v :: v in desired ==> PhasesHandled(l, l', v, IsCreating(actions, v.identity)))
    && CreationsExhaust(l, l', desired, actions, minimum)
  }

  /** Handing out the stake does not touch the accounts of the busy validators. */
  ghost predicate BusyLeftAlone(d: Distribution, l': Ledger, desired: seq<ValidatorStake>) {
    forall v :: v in desired && v.identity in d.busy ==> ListedSame(d.ledger, l', v)
  }

  ghost predicate ListedSame(l: Ledger, l': Ledger, v: ValidatorStake) {
    SameAt(l, l', StakeOf(v.voteAddress)) && SameAt(l, l', TransientOf(v.voteAddress))
  }

  /** The busy validators are exactly those with a transient account that cannot be merged or without
      active stake; stake can be split off for all others; orphans are handled. */
  ghost predicate Prepared(l: Ledger, l': Ledger, desired: seq<ValidatorStake>, actions: Actions) {
    && actions.Keys == BusyTransients(l, desired) + WithoutActiveStake(l, desired)
    && (forall v :: v in desired && v.identity !in actions ==> ReadyToSplit(l', v))
    && Distinct(NotBusy(desired, actions.Keys))
    && (forall v :: v in NotBusy(desired, actions.Keys) ==> ReadyToSplit(l', v))
    && AllOrphansHandled(l, l', Orphans(l, desired))
  }

  /** Together the phases prepare the ledger: orphans first, then the merges, then the creations. */
  lemma PreparedByPhases(
    l: Ledger, orphansDone: Ledger, mergesDone: Ledger, l': Ledger, desired: seq<ValidatorStake>,
    transients: Actions, actions: Actions)
    requires Distinct(desired)
    requires AllOrphansHandled(l, orphansDone, Orphans(l, desired)) && ForeignSame(orphansDone, l', desired)
    requires BusyTransients(orphansDone, desired) == BusyTransients(l, desired)
    requires WithoutActiveStake(orphansDone, desired) == WithoutActiveStake(l, desired)
    requires TransientsMerged(orphansDone, mergesDone, desired, map[], transients)
    requires StakesCreated(mergesDone, l', desired, transients, actions)
    ensures Prepared(l, l', desired, actions)
  {
    NotBusyAreReady(mergesDone, l', desired, transients.Keys, actions);
    StillHandled(l, orphansDone, l', desired, desired);
  }

  lemma ReportedByPhases(
    l: Ledger, orphansDone: Ledger, mergesDone: Ledger, l': Ledger, desired: seq<ValidatorStake>,
    transients: Actions, actions: Actions)
    requires Distinct(desired) && forall v :: v in desired ==> ListedSame(l, orphansDone, v)
    requires TransientsMerged(orphansDone, mergesDone, desired, map[], transients)
    requires StakesCreated(mergesDone, l', desired, transients, actions)
    ensures BusyReported(l, desired, actions)
  {
    forall v | v in desired
      ensures SameAt(l, orphansDone, StakeOf(v.voteAddress)) && SameAt(l, orphansDone, TransientOf(v.voteAddress))
    {
      assert ListedSame(l, orphansDone, v);
    }
    ReportsOfBoth(l, orphansDone, mergesDone, desired, transients, actions);
  }

  lemma AccountsByPhases(
    l: Ledger, orphansDone: Ledger, mergesDone: Ledger, l': Ledger, desired: seq<ValidatorStake>,
    transients: Actions, actions: Actions, minimum: nat)
    requires forall v :: v in desired ==> ListedSame(l, orphansDone, v)
    requires TransientsTakeable(orphansDone, desired)
    requires TransientsMerged(orphansDone, mergesDone, desired, map[], transients)
    requires StakesCreated(mergesDone, l', desired, transients, actions)
    requires CreationsExhaust(mergesDone, l', desired, actions, minimum)
    ensures AccountsPrepared(l, l', desired, actions, minimum)
  {
    forall v | v in desired
      ensures PhasesHandled(l, l', v, IsCreating(actions, v.identity))
      ensures Missing(l, v) <==> Missing(mergesDone, v)
    {
      assert ListedSame(l, orphansDone, v) && TransientTakeable(orphansDone, v);
      assert SameActivation(orphansDone, mergesDone, StakeOf(v.voteAddress));
      PhasesOfOne(l, orphansDone, mergesDone, l', v, IsCreating(actions, v.identity));
    }
    SameMissing(l, mergesDone, l', desired, actions, minimum);
  }

  lemma SameMissing(l: Ledger, l1: Ledger, l': Ledger, desired: seq<ValidatorStake>, actions: Actions, minimum: nat)
    requires forall v :: v in desired ==> (Missing(l, v) <==> Missing(l1, v))
    requires CreationsExhaust(l1, l', desired, actions, minimum)
    ensures CreationsExhaust(l, l', desired, actions, minimum)
  {
  }

  /** The reports on the decisions do not change who is reported to be getting a stake account. */
  lemma SameCreating(l: Ledger, l': Ledger, desired: seq<ValidatorStake>, actions: Actions, all: Actions, minimum: nat)
    requires forall v :: v in desired ==> IsCreating(actions, v.identity) == IsCreating(all, v.identity)
    requires AccountsPrepared(l, l', desired, actions, minimum)
    ensures AccountsPrepared(l, l', desired, all, minimum)
  {
  }

  lemma NotCreating(
    l: Ledger, desired: seq<ValidatorStake>, targets: Targets, reserve: nat, actions: Actions, all: Actions,
    unfunded: set<Pubkey>)
    requires Distinct(desired) && targets.none == MIN_STAKE_ACCOUNT_BALANCE
    requires var validators := NotBusy(desired, actions.Keys);
             && Distinct(validators) && (forall v :: v in validators ==> ReadyToSplit(l, v))
             && Reported(l, validators, targets, reserve, all, unfunded)
             && OthersStay(validators, actions, all)
    ensures forall v :: v in desired ==> IsCreating(actions, v.identity) == IsCreating(all, v.identity)
  {
    var validators := NotBusy(desired, actions.Keys);
    forall v | v in desired
      ensures IsCreating(actions, v.identity) == IsCreating(all, v.identity)
    {
      if v in validators {
        LevelsReported(l, validators, targets, reserve, all, unfunded, v);
      }
    }
  }

  /** The epoch ended before the stake was handed out. */
  lemma StoppedEarly(e: Epoch, dryRun: bool, desired: seq<ValidatorStake>, minimum: nat, baseline: nat)
    requires Total(e.before) < TWO_TO_THE_64 && minimum < TWO_TO_THE_64
    requires KeptLedger(e.before, e.after, minimum) && e.reached == None && e.outcome.Err?
    requires e.outcome.error in BATCH_ERRORS - {DistributionFailed}
             + {InvalidStakeAccount, NotEnoughStakeToCoverBaseline}
    requires e.failures == if e.outcome.error in {InvalidStakeAccount, NotEnoughStakeToCoverBaseline} then 0 else 1
    requires e.outcome.error == InvalidStakeAccount ==> SomeDangling(e.before, desired)
    requires e.outcome.error == NotEnoughStakeToCoverBaseline ==>
               !SomeDangling(e.before, desired) && !BaselineCovered(e.before, desired, minimum, baseline)
    requires SomeDangling(e.before, desired) ==> forall v :: v in desired ==> ListedSame(e.before, e.after, v)
    requires MergesTakeable(e.before, desired) ==> e.rejections == 0
    requires e.outcome.error == NotEnoughStakeToCoverBaseline ==> MergesTakeable(e.before, desired)
    ensures AsPromised(e, dryRun, desired, minimum, baseline)
  {
  }

  ghost predicate DoneAsDecided(
    e: Epoch, d: Distribution, dryRun: bool, desired: seq<ValidatorStake>, actions: Actions)
    requires e.outcome.Ok? && d.totalRead < TWO_TO_THE_64 && d.minReserve < TWO_TO_THE_64
  {
    StakeDistributed(
      d.ledger, e.after, dryRun, NotBusy(desired, actions.Keys), TargetsOf(d, desired),
      Available(d.ledger, d.minReserve), actions, e.outcome.value.actions, e.outcome.value.unfunded)
  }

  /** Reporting decisions for the others leaves the reasons of the busy validators. */
  lemma BusyStayReported(l: Ledger, desired: seq<ValidatorStake>, actions: Actions, actions': Actions)
    requires Distinct(desired) && BusyReported(l, desired, actions)
    requires forall k :: k in actions && (forall v :: v in NotBusy(desired, actions.Keys) ==> v.identity != k) ==>
               k in actions' && actions'[k] == actions[k]
    ensures BusyReported(l, desired, actions')
  {
    forall v | v in desired && v.identity in actions
      ensures v.identity in actions' && actions'[v.identity] == actions[v.identity]
    {
    }
  }

  lemma HandedOutInFull(
    e: Epoch, dryRun: bool, desired: seq<ValidatorStake>, minimum: nat, baseline: nat, actions: Actions)
    requires Total(e.before) < TWO_TO_THE_64 && minimum < TWO_TO_THE_64
    requires e.reached.Some? && Prepared(e.before, e.reached.value.ledger, desired, actions)
    requires !SomeDangling(e.before, desired) && BaselineCovered(e.before, desired, minimum, baseline)
    requires var d := e.reached.value;
             && d == Distribution(d.ledger, Total(e.before), minimum, baseline, actions.Keys, {})
             && KeptLedger(e.before, d.ledger, minimum) && KeptLedger(d.ledger, e.after, minimum)
             && ForeignSame(d.ledger, e.after, NotBusy(desired, actions.Keys))
    requires e.outcome.Err? ==> e.outcome.error == DistributionFailed
    requires MergesTakeable(e.before, desired) && e.rejections == 0
    requires e.failures == if e.outcome.Ok? then 0 else 1
    requires e.outcome.Ok? ==> DoneAsDecided(e, e.reached.value, dryRun, desired, actions)
    requires e.outcome.Ok? && dryRun ==> e.after == e.reached.value.ledger
    requires Distinct(desired) && BusyReported(e.before, desired, actions)
    requires AccountsPrepared(e.before, e.reached.value.ledger, desired, actions, minimum)
    ensures AsPromised(e, dryRun, desired, minimum, baseline)
  {
    var d := e.reached.value;
    LeftAlone(d, e.after, desired);
    if e.outcome.Ok? {
      NotCreating(d.ledger, desired, TargetsOf(d, desired), Available(d.ledger, d.minReserve), actions,
                  e.outcome.value.actions, e.outcome.value.unfunded);
      SameCreating(e.before, d.ledger, desired, actions, e.outcome.value.actions, minimum);
      BusyStayReported(e.before, desired, actions, e.outcome.value.actions);
    }
    StillHandled(e.before, e.reached.value.ledger, e.after, desired, NotBusy(desired, actions.Keys));
  }

  lemma LeftAlone(d: Distribution, l': Ledger, desired: seq<ValidatorStake>)
    requires Distinct(desired) && ForeignSame(d.ledger, l', NotBusy(desired, d.busy))
    ensures BusyLeftAlone(d, l', desired)
  {
    forall v | v in desired && v.identity in d.busy
      ensures ListedSame(d.ledger, l', v)
    {
      var i :| 0 <= i < |desired| && desired[i] == v;
      forall w | w in NotBusy(desired, d.busy)
        ensures w.voteAddress != v.voteAddress
      {
        var j :| 0 <= j < |desired| && desired[j] == w;
        OtherVote(desired, i, j);
      }
      assert Foreign(StakeOf(v.voteAddress), NotBusy(desired, d.busy));
      assert Foreign(TransientOf(v.voteAddress), NotBusy(desired, d.busy));
    }
  }

  // ---------- What an epoch makes of each validator ----------

  /** The epoch ended well. */
  ghost predicate EndedWell(e: Epoch, dryRun: bool, desired: seq<ValidatorStake>, minimum: nat, baseline: nat) {
    && Total(e.before) < TWO_TO_THE_64 && minimum < TWO_TO_THE_64 && Distinct(desired)
    && e.outcome.Ok? && AsPromised(e, dryRun, desired, minimum, baseline)
  }

  /** The validator can be given or relieved of stake: its stake account is active, and a transient account
      that it has can be merged. */
  ghost predicate Takes(l: Ledger, v: ValidatorStake) {
    var stake, transient := StakeOf(v.voteAddress), TransientOf(v.voteAddress);
    && stake in l && l[stake].activation.Active?
    && (transient in l ==> l[transient].activation.Inactive? || Joins(l, v))
  }

  /** The stake it has once that is merged. */
  ghost function StakeWithMerge(l: Ledger, v: ValidatorStake): nat {
    BalanceAt(l, StakeOf(v.voteAddress)) + if Joins(l, v) then BalanceAt(l, TransientOf(v.voteAddress)) else 0
  }

  lemma NotBusyIffTakes(l: Ledger, desired: seq<ValidatorStake>, v: ValidatorStake)
    requires Distinct(desired) && v in desired
    ensures v.identity !in BusyTransients(l, desired) + WithoutActiveStake(l, desired) <==> Takes(l, v)
  {
    assert Takes(l, v) <==> ActiveStake(l, v) && !BusyTransient(l, v);
    var i :| 0 <= i < |desired| && desired[i] == v;
    forall w | w in desired && w.identity == v.identity
      ensures w == v
    {
      var j :| 0 <= j < |desired| && desired[j] == w;
    }
  }

  lemma WhenHandedOut(
    e: Epoch, dryRun: bool, desired: seq<ValidatorStake>, minimum: nat, baseline: nat, v: ValidatorStake)
    requires EndedWell(e, dryRun, desired, minimum, baseline) && v in desired
    ensures var d := e.reached.value;
            && (v.identity in d.busy <==> !Takes(e.before, v))
            && (Takes(e.before, v) ==>
                  && v in NotBusy(desired, d.busy) && ReadyToSplit(d.ledger, v)
                  && BalanceAt(d.ledger, StakeOf(v.voteAddress)) == StakeWithMerge(e.before, v))
  {
    NotBusyIffTakes(e.before, desired, v);
    assert PhasesHandled(e.before, e.reached.value.ledger, v, IsCreating(e.outcome.value.actions, v.identity));
  }

  /** A validator that takes stake is brought to its level: one that should have none keeps the account
      minimum, a Baseline validator the baseline stake, and a Bonus validator an equal share of the rest. */
  lemma EpochBringsToLevel(e: Epoch, desired: seq<ValidatorStake>, minimum: nat, baseline: nat, v: ValidatorStake)
    requires EndedWell(e, false, desired, minimum, baseline) && v in desired && Takes(e.before, v)
    ensures BroughtToLevel(e.after, v, StakeWithMerge(e.before, v), baseline,
                           BonusOf(Total(e.before), desired, minimum, baseline))
  {
    WhenHandedOut(e, false, desired, minimum, baseline, v);
    var d := e.reached.value;
    LevelsReached(d.ledger, e.after, NotBusy(desired, d.busy), TargetsOf(d, desired),
                  Available(d.ledger, minimum), v);
  }

  /** That is what is reported, in a dry run, too. */
  lemma EpochReportsLevel(
    e: Epoch, dryRun: bool, desired: seq<ValidatorStake>, minimum: nat, baseline: nat, v: ValidatorStake)
    requires EndedWell(e, dryRun, desired, minimum, baseline) && v in desired && Takes(e.before, v)
    ensures ReportedAtLevel(e.outcome.value.actions, e.outcome.value.unfunded, v, StakeWithMerge(e.before, v),
                            baseline, BonusOf(Total(e.before), desired, minimum, baseline))
  {
    WhenHandedOut(e, dryRun, desired, minimum, baseline, v);
    var d := e.reached.value;
    NotBusyDistinct(desired, d.busy);
    LevelsReported(d.ledger, NotBusy(desired, d.busy), TargetsOf(d, desired), Available(d.ledger, minimum),
                   e.outcome.value.actions, e.outcome.value.unfunded, v);
  }

  /** The accounts of a validator that does not take stake are merged, created and delegated as far as they
      can be, and otherwise left alone; and why it does not take stake is reported. */
  lemma EpochLeavesTheRest(
    e: Epoch, dryRun: bool, desired: seq<ValidatorStake>, minimum: nat, baseline: nat, v: ValidatorStake)
    requires EndedWell(e, dryRun, desired, minimum, baseline) && v in desired && !Takes(e.before, v)
    ensures var actions := e.outcome.value.actions;
            && v.identity in actions
            && WaitsBecause(e.before, v, actions[v.identity])
            && PhasesHandled(e.before, e.after, v, actions[v.identity] == CreatingStakeAccount)
            && (actions[v.identity] == InsufficientFunds ==>
                  BalanceAt(e.after, Reserve) < minimum + MIN_STAKE_ACCOUNT_BALANCE)
  {
    WhenHandedOut(e, dryRun, desired, minimum, baseline, v);
    var d, actions := e.reached.value, e.outcome.value.actions;
    ReasonReported(e.before, desired, actions, v);
    assert PhasesHandled(e.before, d.ledger, v, IsCreating(actions, v.identity));
    assert ListedSame(d.ledger, e.after, v);
    if actions[v.identity] == InsufficientFunds {
      ReserveTooLow(e, dryRun, desired, minimum, baseline, v);
    }
  }

  lemma ReasonReported(l: Ledger, desired: seq<ValidatorStake>, actions: Actions, v: ValidatorStake)
    requires BusyReported(l, desired, actions) && v in desired && !Takes(l, v)
    ensures v.identity in actions && WaitsBecause(l, v, actions[v.identity])
  {
  }

  lemma ReserveTooLow(
    e: Epoch, dryRun: bool, desired: seq<ValidatorStake>, minimum: nat, baseline: nat, v: ValidatorStake)
    requires EndedWell(e, dryRun, desired, minimum, baseline) && v in desired && Missing(e.before, v)
    requires !IsCreating(e.outcome.value.actions, v.identity)
    ensures BalanceAt(e.after, Reserve) < minimum + MIN_STAKE_ACCOUNT_BALANCE
  {
    assert CreationsExhaust(e.before, e.reached.value.ledger, desired, e.outcome.value.actions, minimum);
  }


  /** A validator that takes stake and lacks enough to bother, but is left short of its level, finds the
      reserve used up, and nobody behind it in the queue is given stake. */
  lemma EpochLeavesShort(
    e: Epoch, desired: seq<ValidatorStake>, minimum: nat, baseline: nat, v: ValidatorStake, level: nat)
    requires EndedWell(e, false, desired, minimum, baseline) && v in desired && Takes(e.before, v)
    requires IsLevel(v.stakeState, LevelsOf(Total(e.before), desired, minimum, baseline), level)
    requires StakeWithMerge(e.before, v) + MIN_STAKE_CHANGE_AMOUNT <= level
    requires StakeWithMerge(e.before, v) + BalanceAt(e.after, TransientOf(v.voteAddress)) < level
    ensures BalanceAt(e.after, Reserve) < minimum + MIN_STAKE_CHANGE_AMOUNT
    ensures forall w :: w in desired && Takes(e.before, w) && GivenStake(e.after, w) ==>
              Precedes(Entry(StakeWithMerge(e.before, w), w), Entry(StakeWithMerge(e.before, v), v))
  {
    var d := e.reached.value;
    WhenHandedOut(e, false, desired, minimum, baseline, v);
    ShortMeansDrained(d.ledger, e.after, NotBusy(desired, d.busy), TargetsOf(d, desired), minimum, v, level);
    forall w | w in desired && Takes(e.before, w) && GivenStake(e.after, w)
      ensures Precedes(Entry(StakeWithMerge(e.before, w), w), Entry(StakeWithMerge(e.before, v), v))
    {
      WhenHandedOut(e, false, desired, minimum, baseline, w);
      ServedBefore(d.ledger, e.after, NotBusy(desired, d.busy), TargetsOf(d, desired),
                   Available(d.ledger, minimum), v, w, level);
    }
  }

  /** The amount that is reported as the validator's target. */
  function ReportedTarget(actions: Actions): ValidatorStake -> nat {
    (v: ValidatorStake) =>
      if v.identity in actions && actions[v.identity].TargetStake? then actions[v.identity].desired else 0
  }

  lemma OneTargetReported(
    e: Epoch, dryRun: bool, desired: seq<ValidatorStake>, minimum: nat, baseline: nat, v: ValidatorStake)
    requires EndedWell(e, dryRun, desired, minimum, baseline) && v in desired
    ensures var target := ReportedTarget(e.outcome.value.actions)(v);
            && target <= Desired(LevelsOf(Total(e.before), desired, minimum, baseline), v.stakeState)
            && (Takes(e.before, v) ==>
                  target == Desired(LevelsOf(Total(e.before), desired, minimum, baseline), v.stakeState))
  {
    if Takes(e.before, v) {
      EpochReportsLevel(e, dryRun, desired, minimum, baseline, v);
    } else {
      EpochLeavesTheRest(e, dryRun, desired, minimum, baseline, v);
    }
  }

  /** The targets that are reported fit in what there is to hand out, if it covers the minimum and baseline
      levels. When no validator is busy, that is so only then, and fewer lamports are left over than there
      are Bonus validators. */
  lemma ReportedTargetsFit(e: Epoch, dryRun: bool, desired: seq<ValidatorStake>, minimum: nat, baseline: nat)
    requires EndedWell(e, dryRun, desired, minimum, baseline)
    ensures var total := TotalStakeAmount(Total(e.before), minimum);
            var committed :=
              CountAt(desired, NoStake) * MIN_STAKE_ACCOUNT_BALANCE + CountAt(desired, Baseline) * baseline;
            var reported := SumBy(desired, ReportedTarget(e.outcome.value.actions));
            && (committed <= total ==> reported <= total)
            && (e.reached.value.busy == {} ==>
                  && (reported <= total <==> committed <= total)
                  && (committed <= total && CountAt(desired, Bonus) > 0 ==> total - CountAt(desired, Bonus) < reported))
  {
    var levels := LevelsOf(Total(e.before), desired, minimum, baseline);
    var reported := ReportedTarget(e.outcome.value.actions);
    forall v | v in desired
      ensures reported(v) <= AmountFor(levels)(v)
      ensures e.reached.value.busy == {} ==> reported(v) == AmountFor(levels)(v)
    {
      OneTargetReported(e, dryRun, desired, minimum, baseline, v);
      WhenHandedOut(e, dryRun, desired, minimum, baseline, v);
    }
    SumByBound(desired, reported, AmountFor(levels));
    if e.reached.value.busy == {} {
      SumByBound(desired, AmountFor(levels), reported);
    }
    SumOfLevels(desired, levels);
    TargetsFitIffCovered(TotalStakeAmount(Total(e.before), minimum), CountAt(desired, NoStake),
                         CountAt(desired, Baseline), CountAt(desired, Bonus), baseline);
  }

  ghost predicate GivenStake(l: Ledger, v: ValidatorStake) {
    TransientOf(v.voteAddress) in l && l[TransientOf(v.voteAddress)].activation == Activating
  }

  // ---------- Many epochs ----------

  /** The epochs follow each other from `l` to `l'`, and each keeps the ledger. */
  ghost predicate Linked(l: Ledger, l': Ledger, epochs: seq<EpochInput>, history: seq<Epoch>, minimum: nat)
    decreases |epochs|
  {
    |history| == |epochs| &&
    if epochs == [] then l' == l
    else
      var n := |epochs| - 1;
      && Linked(l, history[n].before, epochs[..n], history[..n], minimum)
      && KeptLedger(history[n].before, history[n].after, minimum)
      && l' == Advanced(history[n].after, epochs[n].slow, epochs[n].credits)
  }

  ghost predicate PromisedAt(epochs: seq<EpochInput>, history: seq<Epoch>, i: nat, minimum: nat, baseline: nat)
    requires i < |history| == |epochs| && minimum < TWO_TO_THE_64
  {
    && Total(history[i].before) < TWO_TO_THE_64
    && AsPromised(history[i], epochs[i].dryRun, epochs[i].desired, minimum, baseline)
  }

  ghost predicate AllPromised(epochs: seq<EpochInput>, history: seq<Epoch>, minimum: nat, baseline: nat)
    requires |history| == |epochs| && minimum < TWO_TO_THE_64
  {
    forall i :: 0 <= i < |epochs| ==> PromisedAt(epochs, history, i, minimum, baseline)
  }

  /** What a run of epochs from `l` to `l'` comes to: each epoch is as promised. */
  ghost predicate Recorded(
    l: Ledger, l': Ledger, epochs: seq<EpochInput>, history: seq<Epoch>, minimum: nat, baseline: nat)
    requires minimum < TWO_TO_THE_64
  {
    Linked(l, l', epochs, history, minimum) && AllPromised(epochs, history, minimum, baseline)
  }

  lemma LinkOneMore(
    l: Ledger, l': Ledger, epochs: seq<EpochInput>, i: nat, history: seq<Epoch>, epoch: Epoch, minimum: nat)
    requires i < |epochs| && Linked(l, epoch.before, epochs[..i], history, minimum)
    requires KeptLedger(l, epoch.before, minimum) && KeptLedger(epoch.before, epoch.after, minimum)
    requires l' == Advanced(epoch.after, epochs[i].slow, epochs[i].credits)
    ensures Linked(l, l', epochs[..i + 1], history + [epoch], minimum)
    ensures KeptLedger(l, l', minimum)
  {
    AdvancedKept(epoch.after, epochs[i].slow, epochs[i].credits, minimum);
    KeptTransitive(l, epoch.before, epoch.after, minimum);
    KeptTransitive(l, epoch.after, l', minimum);
    assert epochs[..i + 1][..i] == epochs[..i] && (history + [epoch])[..i] == history;
  }

  lemma PromiseOneMore(epochs: seq<EpochInput>, i: nat, history: seq<Epoch>, epoch: Epoch, minimum: nat, baseline: nat)
    requires |history| == i < |epochs| && minimum < TWO_TO_THE_64 && Total(epoch.before) < TWO_TO_THE_64
    requires AllPromised(epochs[..i], history, minimum, baseline)
    requires AsPromised(epoch, epochs[i].dryRun, epochs[i].desired, minimum, baseline)
    ensures AllPromised(epochs[..i + 1], history + [epoch], minimum, baseline)
  {
    var longer, longerHistory := epochs[..i + 1], history + [epoch];
    forall j | 0 <= j < |longerHistory|
      ensures PromisedAt(longer, longerHistory, j, minimum, baseline)
    {
      assert longer[j] == epochs[j];
      if j < i {
        assert PromisedAt(epochs[..i], history, j, minimum, baseline);
      }
    }
  }

  lemma {:induction false} BeginsWhereTheLastEnded(
    l: Ledger, l': Ledger, epochs: seq<EpochInput>, history: seq<Epoch>, minimum: nat, i: nat)
    requires Linked(l, l', epochs, history, minimum) && i + 1 < |epochs|
    ensures history[i + 1].before == Advanced(history[i].after, epochs[i].slow, epochs[i].credits)
    decreases |epochs|
  {
    var n := |epochs| - 1;
    if i + 1 < n {
      BeginsWhereTheLastEnded(l, history[n].before, epochs[..n], history[..n], minimum, i);
    } else {
      assert Linked(l, history[n].before, epochs[..n], history[..n], minimum);
      assert history[..n][n - 1] == history[i] && epochs[..n][n - 1] == epochs[i];
    }
  }

  lemma {:induction false} RunKeeps(
    l: Ledger, l': Ledger, epochs: seq<EpochInput>, history: seq<Epoch>, minimum: nat)
    requires Linked(l, l', epochs, history, minimum)
    ensures KeptLedger(l, l', minimum)
    decreases |epochs|
  {
    if epochs != [] {
      var n := |epochs| - 1;
      RunKeeps(l, history[n].before, epochs[..n], history[..n], minimum);
      AdvancedKept(history[n].after, epochs[n].slow, epochs[n].credits, minimum);
      KeptTransitive(l, history[n].before, history[n].after, minimum);
      KeptTransitive(l, history[n].after, l', minimum);
    }
  }

  lemma WithoutLast(l: Ledger, l': Ledger, epochs: seq<EpochInput>, history: seq<Epoch>, minimum: nat)
    requires Linked(l, l', epochs, history, minimum) && epochs != []
    ensures var n := |epochs| - 1;
            && |history| == n + 1
            && Linked(l, history[n].before, epochs[..n], history[..n], minimum)
            && KeptLedger(history[n].before, history[n].after, minimum)
  {
  }

  lemma {:induction false} PartIsLinked(
    l: Ledger, l': Ledger, epochs: seq<EpochInput>, history: seq<Epoch>, minimum: nat, i: nat)
    requires i < |epochs| == |history| && Linked(l, l', epochs, history, minimum)
    ensures Linked(l, history[i].before, epochs[..i], history[..i], minimum)
    ensures KeptLedger(history[i].before, history[i].after, minimum)
    decreases |epochs|
  {
    var n := |epochs| - 1;
    WithoutLast(l, l', epochs, history, minimum);
    if i < n {
      PartIsLinked(l, history[n].before, epochs[..n], history[..n], minimum, i);
      assert epochs[..n][..i] == epochs[..i];
      assert history[..n][..i] == history[..i];
    }
  }

  /** Each epoch of a run begins with what the run has kept of its first ledger, where the one before it
      ended. */
  lemma LinkedAt(l: Ledger, l': Ledger, epochs: seq<EpochInput>, history: seq<Epoch>, minimum: nat, i: nat)
    requires Linked(l, l', epochs, history, minimum) && i < |epochs|
    ensures KeptLedger(l, history[i].before, minimum) && KeptLedger(history[i].before, history[i].after, minimum)
    ensures i + 1 < |epochs| ==>
              history[i + 1].before == Advanced(history[i].after, epochs[i].slow, epochs[i].credits)
  {
    PartIsLinked(l, l', epochs, history, minimum, i);
    RunKeeps(l, history[i].before, epochs[..i], history[..i], minimum);
    if i + 1 < |epochs| {
      BeginsWhereTheLastEnded(l, l', epochs, history, minimum, i);
    }
  }

  lemma DanglingStops(
    epochs: seq<EpochInput>, history: seq<Epoch>, i: nat, minimum: nat, baseline: nat, v: ValidatorStake)
    requires i < |history| == |epochs| && minimum < TWO_TO_THE_64 && AllPromised(epochs, history, minimum, baseline)
    requires v in epochs[i].desired && Dangling(history[i].before, v)
    ensures history[i].outcome.Err? && history[i].reached == None
    ensures Dangling(Advanced(history[i].after, epochs[i].slow, epochs[i].credits), v)
  {
    assert PromisedAt(epochs, history, i, minimum, baseline);
    assert SomeDangling(history[i].before, epochs[i].desired);
    assert ListedSame(history[i].before, history[i].after, v);
  }

  /** An epoch that lists its validator leaves it dangling for the next one. */
  lemma DanglingCarriesOver(
    l: Ledger, l': Ledger, epochs: seq<EpochInput>, history: seq<Epoch>, minimum: nat, baseline: nat,
    v: ValidatorStake, i: nat)
    requires |history| == |epochs| && i + 1 < |epochs| && minimum < TWO_TO_THE_64
    requires Linked(l, l', epochs, history, minimum) && AllPromised(epochs, history, minimum, baseline)
    requires v in epochs[i].desired && Dangling(history[i].before, v)
    ensures Dangling(history[i + 1].before, v)
  {
    BeginsWhereTheLastEnded(l, l', epochs, history, minimum, i);
    DanglingStops(epochs, history, i, minimum, baseline, v);
  }

  lemma {:induction false} StaysDangling(history: seq<Epoch>, v: ValidatorStake, i: nat, j: nat)
    requires i <= j < |history| && Dangling(history[i].before, v)
    requires forall k :: i <= k < j && Dangling(history[k].before, v) ==> Dangling(history[k + 1].before, v)
    ensures Dangling(history[j].before, v)
  {
    if i < j {
      StaysDangling(history, v, i, j - 1);
    }
  }

  /** A dangling transient account makes every epoch fail before the stake is handed out, for as long as
      its validator is on the list. */
  lemma DanglingPersists(
    l: Ledger, l': Ledger, epochs: seq<EpochInput>, history: seq<Epoch>, minimum: nat, baseline: nat,
    v: ValidatorStake, i: nat, j: nat)
    requires minimum < TWO_TO_THE_64 && Recorded(l, l', epochs, history, minimum, baseline) && i <= j < |epochs|
    requires forall k :: i <= k <= j ==> v in epochs[k].desired
    requires Dangling(history[i].before, v)
    ensures Dangling(history[j].before, v) && history[j].outcome.Err? && history[j].reached == None
  {
    forall k | i <= k < j && Dangling(history[k].before, v)
      ensures Dangling(history[k + 1].before, v)
    {
      DanglingCarriesOver(l, l', epochs, history, minimum, baseline, v, k);
    }
    StaysDangling(history, v, i, j);
    DanglingStops(epochs, history, j, minimum, baseline, v);
  }

  /** What may have landed of the orphans' batch when the rest was lost. */
  ghost predicate PartOfOrphans(l: Ledger, desired: seq<ValidatorStake>, landed: seq<Transaction>) {
    exists batch :: OrphansPlanned(l, Orphans(l, desired), batch) && multiset(landed) <= multiset(batch)
      && Lands(l, landed)
  }

  /** Dangling accounts come about: a validator that has just been given more stake is taken off the
      list; the deactivation of its transient account is lost while that of its stake account lands;
      an epoch later the stake account is merged while the deactivation is lost again. */
  lemma DanglingIsReachable(v: ValidatorStake, reserve: Account, stake: Account, added: Account)
    requires reserve.activation.Inactive? && stake.activation.Active? && added.activation.Active?
    ensures var s, t := StakeOf(v.voteAddress), TransientOf(v.voteAddress);
            var l: Ledger := map[Reserve := reserve, s := stake, t := added];
            var l' := Advanced(Play(l, [Deactivate(s)]), {}, map[]);
            && PartOfOrphans(l, [], [Deactivate(s)]) && PartOfOrphans(l', [], [Merge(Reserve, s)])
            && Dangling(Advanced(Play(l', [Merge(Reserve, s)]), {}, map[]), v)
  {
    var s, t := StakeOf(v.voteAddress), TransientOf(v.voteAddress);
    var l: Ledger := map[Reserve := reserve, s := stake, t := added];
    var stopped := stake.(activation := Deactivating);
    var inactive := stake.(activation := Inactive);
    var l1: Ledger := map[Reserve := reserve, s := stopped, t := added];
    var l': Ledger := map[Reserve := reserve, s := inactive, t := added];
    var l2: Ledger := map[Reserve := reserve.(lamports := reserve.lamports + stake.lamports), t := added];
    OnlyOneLands(l, Deactivate(s), l1);
    OnlyOneLands(l', Merge(Reserve, s), l2);
    assert Advanced(l1, {}, map[]) == l' && Advanced(l2, {}, map[]) == l2;
    OneOrphanLeft(l, v, Deactivate(s));
    OneOrphanLeft(l', v, Merge(Reserve, s));
  }

  /** All of the orphans' batch has landed. */
  ghost predicate AllOfOrphans(l: Ledger, desired: seq<ValidatorStake>, landed: seq<Transaction>) {
    exists batch :: OrphansPlanned(l, Orphans(l, desired), batch) && multiset(landed) == multiset(batch)
      && Lands(l, landed)
  }

  /** They come about without any loss, too: the transient account is still warming up when the validator
      is taken off the list, and slow to finish, while the stake account is deactivated and merged. */
  lemma DanglingWithoutLoss(v: ValidatorStake, reserve: Account, stake: Account, added: Account)
    requires reserve.activation.Inactive? && stake.activation.Active? && added.activation.Activating?
    ensures var s, t := StakeOf(v.voteAddress), TransientOf(v.voteAddress);
            var l: Ledger := map[Reserve := reserve, s := stake, t := added];
            var l' := Advanced(Play(l, [Deactivate(s)]), {t}, map[]);
            && AllOfOrphans(l, [], [Deactivate(s)]) && AllOfOrphans(l', [], [Merge(Reserve, s)])
            && Dangling(Advanced(Play(l', [Merge(Reserve, s)]), {}, map[]), v)
  {
    var s, t := StakeOf(v.voteAddress), TransientOf(v.voteAddress);
    var l: Ledger := map[Reserve := reserve, s := stake, t := added];
    var l1: Ledger := map[Reserve := reserve, s := stake.(activation := Deactivating), t := added];
    var l': Ledger := map[Reserve := reserve, s := stake.(activation := Inactive), t := added];
    var l2: Ledger := map[Reserve := reserve.(lamports := reserve.lamports + stake.lamports), t := added];
    OnlyOneLands(l, Deactivate(s), l1);
    OnlyOneLands(l', Merge(Reserve, s), l2);
    assert Advanced(l1, {t}, map[]) == l';
    OneOrphanOnly(l, v, Deactivate(s));
    OneOrphanOnly(l', v, Merge(Reserve, s));
  }

  lemma OneOrphanOnly(l: Ledger, v: ValidatorStake, tx: Transaction)
    requires var s, t := StakeOf(v.voteAddress), TransientOf(v.voteAddress);
             && l.Keys == {Reserve, s, t} && l[t].activation.Activating?
             && IsOrphanTransaction(l, tx) && Subject(tx) == s && Accepts(l, tx)
    ensures AllOfOrphans(l, [], [tx])
  {
    OnlyOneLands(l, tx, Execute(l, tx));
    assert [tx][0] == tx;
    assert Orphans(l, []) == {Subject(tx), TransientOf(v.voteAddress)};
    assert OrphansPlanned(l, Orphans(l, []), [tx]);
  }

  /** A merge that is refused comes about, too: the validator is listed again an epoch after its stake
      account was deactivated and the deactivation of its transient account was lost. The credits of the
      two accounts agree, so the merge is planned, although the stake account is inactive. */
  lemma RefusedMergeIsReachable(v: ValidatorStake, reserve: Account, stake: Account, added: Account)
    requires reserve.activation.Inactive? && stake.activation.Active? && added.activation.Active?
    requires SameCreditsObserved(stake, added)
    ensures var s, t := StakeOf(v.voteAddress), TransientOf(v.voteAddress);
            var l: Ledger := map[Reserve := reserve, s := stake, t := added];
            var l' := Advanced(Play(l, [Deactivate(s)]), {}, map[]);
            && PartOfOrphans(l, [], [Deactivate(s)])
            && MergeFor(l', v) == Some(Merge(s, t)) && !Accepts(l', Merge(s, t))
            && !SomeDangling(l', [v]) && !BusyTransient(l', v) && !TransientsTakeable(l', [v])
  {
    var s, t := StakeOf(v.voteAddress), TransientOf(v.voteAddress);
    var l: Ledger := map[Reserve := reserve, s := stake, t := added];
    var l1: Ledger := map[Reserve := reserve, s := stake.(activation := Deactivating), t := added];
    var l': Ledger := map[Reserve := reserve, s := stake.(activation := Inactive), t := added];
    OnlyOneLands(l, Deactivate(s), l1);
    assert Advanced(l1, {}, map[]) == l';
    OneOrphanLeft(l, v, Deactivate(s));
    assert v in [v] && !TransientTakeable(l', v);
  }

  lemma OnlyOneLands(l: Ledger, tx: Transaction, l': Ledger)
    requires Accepts(l, tx) && l' == Execute(l, tx)
    ensures Lands(l, [tx]) && Play(l, [tx]) == l'
  {
    LandOneMore(l, [], tx);
    assert [] + [tx] == [tx];
  }

  lemma OneOrphanLeft(l: Ledger, v: ValidatorStake, tx: Transaction)
    requires var s, t := StakeOf(v.voteAddress), TransientOf(v.voteAddress);
             && l.Keys == {Reserve, s, t} && l[t].activation.Active?
             && IsOrphanTransaction(l, tx) && Subject(tx) == s && Accepts(l, tx)
    ensures PartOfOrphans(l, [], [tx])
  {
    var t := TransientOf(v.voteAddress);
    var batch := [tx, Deactivate(t)];
    OnlyOneLands(l, tx, Execute(l, tx));
    assert batch[0] == tx && batch[1] == Deactivate(t);
    assert Orphans(l, []) == {Subject(tx), t};
    assert OrphansPlanned(l, Orphans(l, []), batch);
    assert multiset(batch) == multiset{tx, Deactivate(t)};
  }

  /** What was done to the orphans stays done. */
  lemma StillHandled(l: Ledger, l': Ledger, l'': Ledger, desired: seq<ValidatorStake>, listed: seq<ValidatorStake>)
    requires AllOrphansHandled(l, l', Orphans(l, desired)) && ForeignSame(l', l'', listed)
    requires forall v :: v in listed ==> v in desired
    ensures AllOrphansHandled(l, l'', Orphans(l, desired))
  {
    forall a | a in Orphans(l, desired)
      ensures OrphanHandled(l, l'', a)
    {
      assert Foreign(a, listed);
      assert SameAt(l', l'', a);
    }
  }

  lemma AllForeignSame(l: Ledger, l1: Ledger, l2: Ledger, desired: seq<ValidatorStake>)
    requires ForeignSame(l, l1, desired) && ForeignSame(l1, l2, desired)
    ensures ForeignSame(l, l2, desired)
  {
    forall a | Foreign(a, desired)
      ensures SameAt(l, l2, a)
    {
      assert SameAt(l, l1, a) && SameAt(l1, l2, a);
    }
  }

  ghost predicate InUse(inuse: set<Address>, v: ValidatorStake) {
    StakeOf(v.voteAddress) in inuse && TransientOf(v.voteAddress) in inuse
  }

  /** Merging the orphans does not touch the accounts of the listed validators. */
  lemma ListedBefore(l: Ledger, l': Ledger, desired: seq<ValidatorStake>, inuse: set<Address>)
    requires forall v :: v in desired ==> InUse(inuse, v)
    requires forall a :: a in inuse && a != Reserve ==> SameAt(l, l', a)
    ensures forall v :: v in desired ==> ListedSame(l, l', v)
    ensures SomeDangling(l', desired) <==> SomeDangling(l, desired)
    ensures BusyTransients(l', desired) == BusyTransients(l, desired)
    ensures WithoutActiveStake(l', desired) == WithoutActiveStake(l, desired)
    ensures ReserveIdle(l) && ReserveIdle(l') && (Reserve in l <==> Reserve in l') ==>
              (TransientsTakeable(l', desired) <==> TransientsTakeable(l, desired))
  {
    forall v | v in desired && ReserveIdle(l) && ReserveIdle(l') && (Reserve in l <==> Reserve in l')
      ensures TransientTakeable(l', v) <==> TransientTakeable(l, v)
    {
      assert InUse(inuse, v);
      assert SameAt(l, l', StakeOf(v.voteAddress)) && SameAt(l, l', TransientOf(v.voteAddress));
      TakeableIff(l, v);
      TakeableIff(l', v);
    }
    forall v | v in desired
      ensures ListedSame(l, l', v)
      ensures Dangling(l', v) <==> Dangling(l, v)
      ensures BusyTransient(l', v) <==> BusyTransient(l, v)
      ensures ActiveStake(l', v) <==> ActiveStake(l, v)
    {
      assert InUse(inuse, v);
      assert SameAt(l, l', StakeOf(v.voteAddress)) && SameAt(l, l', TransientOf(v.voteAddress));
    }
  }

  /** The addresses that belong to the listed validators, and the number of validators at each level. */
  method Survey(desired: seq<ValidatorStake>)
    returns (inuse: set<Address>, minCount: nat, baselineCount: nat, bonusCount: nat)
    ensures Reserve in inuse && forall v :: v in desired ==> InUse(inuse, v)
    ensures forall a :: a !in inuse <==> Foreign(a, desired)
    ensures minCount == CountAt(desired, NoStake)
    ensures baselineCount == CountAt(desired, Baseline)
    ensures bonusCount == CountAt(desired, Bonus)
  {
    inuse, minCount, baselineCount, bonusCount := {Reserve}, 0, 0, 0;
    for i := 0 to |desired|
      invariant Reserve in inuse && forall j :: 0 <= j < i ==> InUse(inuse, desired[j])
      invariant forall a :: a in inuse ==> !Foreign(a, desired)
      invariant minCount == CountAt(desired[..i], NoStake)
      invariant baselineCount == CountAt(desired[..i], Baseline)
      invariant bonusCount == CountAt(desired[..i], Bonus)
    {
      inuse := inuse + {StakeOf(desired[i].voteAddress), TransientOf(desired[i].voteAddress)};
      assert desired[..i + 1][..i] == desired[..i];
      match desired[i].stakeState {
        case NoStake => minCount := minCount + 1;
        case Bonus => bonusCount := bonusCount + 1;
        case Baseline => baselineCount := baselineCount + 1;
      }
    }
    assert desired[..|desired|] == desired;
  }
}
