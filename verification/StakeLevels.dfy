/** What an epoch of the v0 pool makes of the two accounts of each validator: what the merges and creations
    leave, and the level that the stake is brought to. */
module StakeLevels {
  import opened Collections
  import opened StakeTypes
  import opened StakeAllocator
  import opened StakeLedger
  import opened StakeBatches
  import opened StakePhases

  // ---------- What the merges and creations come to ----------

  /** What the phases before the stake is handed out make of the validator's two accounts. */
  ghost predicate PhasesHandled(l: Ledger, l': Ledger, v: ValidatorStake, created: bool) {
    var stake, transient := StakeOf(v.voteAddress), TransientOf(v.voteAddress);
    && (if transient in l && (l[transient].activation.Inactive? || Joins(l, v)) then transient !in l'
        else SameAt(l, l', transient))
    && (if stake !in l then
          if created then stake in l' && l'[stake] == Account(MIN_STAKE_ACCOUNT_BALANCE, Activating, Some(0))
          else stake !in l'
        else match l[stake].activation
          case Active =>
            && stake in l'
            && l'[stake] == l[stake].(lamports := l[stake].lamports + if Joins(l, v) then l[transient].lamports else 0)
          case Inactive => stake in l' && l'[stake] == l[stake].(activation := Activating, credits := Some(0))
          case _ => SameAt(l, l', stake))
  }

  /** Active transient stake that joins a stake account with the same credits. */
  ghost predicate Joins(l: Ledger, v: ValidatorStake) {
    var stake, transient := StakeOf(v.voteAddress), TransientOf(v.voteAddress);
    && transient in l && l[transient].activation.Active? && stake in l
    && l[stake].credits.Some? && l[stake].credits == l[transient].credits
  }

  /** Why the validator neither gets nor loses stake in this epoch: first what its stake account is short of,
      and then what keeps its transient account from being merged. */
  ghost predicate WaitsBecause(l: Ledger, v: ValidatorStake, reason: Action) {
    var stake, transient := StakeOf(v.voteAddress), TransientOf(v.voteAddress);
    if stake !in l then reason in {CreatingStakeAccount, InsufficientFunds}
    else if l[stake].activation == Activating then reason == StakeActivating
    else if l[stake].activation == Deactivating then reason == StakeDeactivating
    else if l[stake].activation == Inactive then reason == StakeInactive
    else
      transient in l &&
      reason == if l[transient].activation == Activating then TransientActivating
                else if l[transient].activation == Deactivating then TransientDeactivating
                else CreditsMismatch
  }

  lemma PhasesOfOne(l: Ledger, l0: Ledger, l1: Ledger, l2: Ledger, v: ValidatorStake, created: bool)
    requires SameAt(l, l0, StakeOf(v.voteAddress)) && SameAt(l, l0, TransientOf(v.voteAddress))
    requires TransientTakeable(l0, v) && MergeHandled(l0, l1, v)
    requires CreationHandled(l1, l2, StakeOf(v.voteAddress), created)
    requires SameAt(l1, l2, TransientOf(v.voteAddress))
    ensures PhasesHandled(l, l2, v, created)
  {
  }

  // ---------- What the distribution comes to ----------

  /** From a stake account with `balance` and no transient account: a surplus over `level` of at least the
      smallest change is deactivated to the lamport; otherwise the stake account stays as it is, and whoever
      lacks that much may be given stake up to `level`. */
  ghost predicate BroughtTo(l': Ledger, v: ValidatorStake, balance: nat, level: nat) {
    var stake, transient := StakeOf(v.voteAddress), TransientOf(v.voteAddress);
    if balance >= level + MIN_STAKE_CHANGE_AMOUNT then
      && BalanceAt(l', stake) == level && transient in l'
      && l'[transient].lamports == balance - level && l'[transient].activation == Deactivating
    else
      && BalanceAt(l', stake) == balance
      && (transient in l' ==>
            && l'[transient].activation == Activating && MIN_STAKE_CHANGE_AMOUNT <= l'[transient].lamports
            && balance + l'[transient].lamports <= level)
  }

  ghost predicate BroughtToLevel(l': Ledger, v: ValidatorStake, balance: nat, baseline: nat, bonus: nat) {
    match v.stakeState
    case NoStake => BroughtTo(l', v, balance, MIN_STAKE_ACCOUNT_BALANCE)
    case Baseline => BroughtTo(l', v, balance, baseline)
    case Bonus => BroughtTo(l', v, balance, bonus)
  }

  /** Where the validator stands in the queue. */
  lemma PlaceInQueue(l: Ledger, validators: seq<ValidatorStake>, v: ValidatorStake) returns (i: nat)
    requires v in validators && ReadyToSplit(l, v)
    ensures i < |Queue(EntriesOf(l, validators))|
    ensures Queue(EntriesOf(l, validators))[i] == Entry(BalanceAt(l, StakeOf(v.voteAddress)), v)
  {
    QueueIsPermutation(EntriesOf(l, validators));
    var q := Queue(EntriesOf(l, validators));
    QueuedSomewhere(l, validators, q, v);
    i :| i < |q| && q[i].validator == v;
    QueuedFromList(l, validators, q, i);
  }

  lemma DecisionBrings(l: Ledger, l': Ledger, v: ValidatorStake, balance: nat, op: Op, level: nat)
    requires ReadyToSplit(l, v) && balance == BalanceAt(l, StakeOf(v.voteAddress))
    requires Approaches(balance, level, op) && Distributed(l, l', v, op)
    ensures BroughtTo(l', v, balance, level)
  {
  }

  /** When all has landed, every one of the validators has been brought to its level. */
  lemma LevelsReached(
    l: Ledger, l': Ledger, validators: seq<ValidatorStake>, targets: Targets, reserve: nat, v: ValidatorStake)
    requires v in validators && ReadyToSplit(l, v) && targets.none == MIN_STAKE_ACCOUNT_BALANCE
    requires AllDistributed(l, l', validators, targets, reserve)
    ensures BroughtToLevel(l', v, BalanceAt(l, StakeOf(v.voteAddress)), targets.baseline, targets.bonus)
  {
    var q := Queue(EntriesOf(l, validators));
    var i := PlaceInQueue(l, validators, v);
    var op := OpFor(q, i, targets, 0, reserve);
    DecisionsApproachTheLevels(q, i, targets, 0, reserve);
    assert Distributed(l, l', v, op);
    match v.stakeState
    case NoStake => DecisionBrings(l, l', v, q[i].balance, op, targets.none);
    case Baseline => DecisionBrings(l, l', v, q[i].balance, op, targets.baseline);
    case Bonus => DecisionBrings(l, l', v, q[i].balance, op, targets.bonus);
  }

  /** The report on a validator names the amount of its level, what it has, and what follows from these;
      it goes without stake exactly if the reserve is reported as depleted. */
  ghost predicate ReportedAt(
    actions: Actions, unfunded: set<Pubkey>, v: ValidatorStake, balance: nat, level: nat)
  {
    && v.identity in actions && actions[v.identity].TargetStake?
    && actions[v.identity].desired == level && actions[v.identity].balance == balance
    && Approaches(balance, level, actions[v.identity].op)
    && (v.identity in unfunded <==> actions[v.identity].op == ReserveDepleted)
  }

  ghost predicate ReportedAtLevel(
    actions: Actions, unfunded: set<Pubkey>, v: ValidatorStake, balance: nat, baseline: nat, bonus: nat)
  {
    match v.stakeState
    case NoStake => ReportedAt(actions, unfunded, v, balance, MIN_STAKE_ACCOUNT_BALANCE)
    case Baseline => ReportedAt(actions, unfunded, v, balance, baseline)
    case Bonus => ReportedAt(actions, unfunded, v, balance, bonus)
  }

  lemma UnfundedAsReported(
    l: Ledger, validators: seq<ValidatorStake>, q: seq<Entry>, targets: Targets, reserve: nat, i: nat)
    requires Distinct(validators) && multiset(q) == multiset(EntriesOf(l, validators)) && i < |q|
    ensures q[i].validator.identity in Unfunded(q, |q|, targets, 0, reserve)
            <==> OpFor(q, i, targets, 0, reserve) == ReserveDepleted
  {
    UnfundedIffDecided(q, |q|, targets, 0, reserve, q[i].validator.identity);
    forall j | 0 <= j < |q| && q[j].validator.identity == q[i].validator.identity
      ensures j == i
    {
      if j < i {
        QueuedOnce(l, validators, q, j, i);
      } else if i < j {
        QueuedOnce(l, validators, q, i, j);
      }
    }
  }

  lemma LevelsReported(
    l: Ledger, validators: seq<ValidatorStake>, targets: Targets, reserve: nat, actions: Actions,
    unfunded: set<Pubkey>, v: ValidatorStake)
    requires v in validators && ReadyToSplit(l, v) && Distinct(validators)
    requires targets.none == MIN_STAKE_ACCOUNT_BALANCE
    requires Reported(l, validators, targets, reserve, actions, unfunded)
    ensures ReportedAtLevel(actions, unfunded, v, BalanceAt(l, StakeOf(v.voteAddress)), targets.baseline, targets.bonus)
  {
    var q := Queue(EntriesOf(l, validators));
    var i := PlaceInQueue(l, validators, v);
    DecisionsApproachTheLevels(q, i, targets, 0, reserve);
    assert DecisionReported(actions, q[i], targets, OpFor(q, i, targets, 0, reserve));
    QueueIsPermutation(EntriesOf(l, validators));
    UnfundedAsReported(l, validators, q, targets, reserve, i);
  }

  /** What is done and reported, for all of them. */
  lemma AllAtTheirLevels(
    l: Ledger, l': Ledger, dryRun: bool, validators: seq<ValidatorStake>, targets: Targets, reserve: nat,
    actions: Actions, unfunded: set<Pubkey>)
    requires Distinct(validators) && (forall v :: v in validators ==> ReadyToSplit(l, v))
    requires targets.none == MIN_STAKE_ACCOUNT_BALANCE
    requires Reported(l, validators, targets, reserve, actions, unfunded)
    requires !dryRun ==> AllDistributed(l, l', validators, targets, reserve)
    ensures forall v :: v in validators ==>
      && ReportedAtLevel(actions, unfunded, v, BalanceAt(l, StakeOf(v.voteAddress)), targets.baseline, targets.bonus)
      && (!dryRun ==>
            BroughtToLevel(l', v, BalanceAt(l, StakeOf(v.voteAddress)), targets.baseline, targets.bonus))
  {
    forall v | v in validators
      ensures ReportedAtLevel(actions, unfunded, v, BalanceAt(l, StakeOf(v.voteAddress)), targets.baseline,
                              targets.bonus)
      ensures !dryRun ==>
                BroughtToLevel(l', v, BalanceAt(l, StakeOf(v.voteAddress)), targets.baseline, targets.bonus)
    {
      LevelsReported(l, validators, targets, reserve, actions, unfunded, v);
      if !dryRun {
        LevelsReached(l, l', validators, targets, reserve, v);
      }
    }
  }

  /** The validator lacks enough to bother, and has been given less than it lacks. */
  ghost predicate LeftShort(l: Ledger, l': Ledger, v: ValidatorStake, level: nat) {
    && BalanceAt(l, StakeOf(v.voteAddress)) + MIN_STAKE_CHANGE_AMOUNT <= level
    && BalanceAt(l, StakeOf(v.voteAddress)) + BalanceAt(l', TransientOf(v.voteAddress)) < level
  }

  lemma ShortInQueue(
    l: Ledger, l': Ledger, q: seq<Entry>, i: nat, targets: Targets, reserve: nat, v: ValidatorStake, level: nat)
    requires i < |q| && q[i] == Entry(BalanceAt(l, StakeOf(v.voteAddress)), v) && ReadyToSplit(l, v)
    requires Distributed(l, l', v, OpFor(q, i, targets, 0, reserve))
    requires IsLevel(v.stakeState, targets, level) && LeftShort(l, l', v, level)
    ensures reserve < Spent(q, |q|, targets, 0, reserve) + MIN_STAKE_CHANGE_AMOUNT
    ensures forall j :: i < j < |q| ==> !OpFor(q, j, targets, 0, reserve).Adding?
  {
    DecisionsApproachTheLevels(q, i, targets, 0, reserve);
    GivenInFullWhileItLasts(q, i, targets, 0, reserve, level);
    SpentMonotone(q, i + 1, |q|, targets, 0, reserve);
  }

  /** Nobody is left short while the reserve has enough for one more change. */
  lemma ShortMeansDrained(
    l: Ledger, l': Ledger, validators: seq<ValidatorStake>, targets: Targets, minimum: nat, v: ValidatorStake,
    level: nat)
    requires v in validators && ReadyToSplit(l, v)
    requires AllDistributed(l, l', validators, targets, Available(l, minimum))
    requires IsLevel(v.stakeState, targets, level) && LeftShort(l, l', v, level)
    ensures BalanceAt(l', Reserve) < minimum + MIN_STAKE_CHANGE_AMOUNT
  {
    var q := Queue(EntriesOf(l, validators));
    var i := PlaceInQueue(l, validators, v);
    assert Distributed(l, l', q[i].validator, OpFor(q, i, targets, 0, Available(l, minimum)));
    ShortInQueue(l, l', q, i, targets, Available(l, minimum), v, level);
  }

  /** Nobody is left short while someone behind is given stake. */
  lemma ServedBefore(
    l: Ledger, l': Ledger, validators: seq<ValidatorStake>, targets: Targets, reserve: nat, v: ValidatorStake,
    w: ValidatorStake, level: nat)
    requires v in validators && ReadyToSplit(l, v) && w in validators && ReadyToSplit(l, w)
    requires AllDistributed(l, l', validators, targets, reserve)
    requires IsLevel(v.stakeState, targets, level) && LeftShort(l, l', v, level)
    requires TransientOf(w.voteAddress) in l' && l'[TransientOf(w.voteAddress)].activation == Activating
    ensures Precedes(Entry(BalanceAt(l, StakeOf(w.voteAddress)), w), Entry(BalanceAt(l, StakeOf(v.voteAddress)), v))
  {
    var q := Queue(EntriesOf(l, validators));
    QueueInOrder(EntriesOf(l, validators));
    var i := PlaceInQueue(l, validators, v);
    var j := PlaceInQueue(l, validators, w);
    assert Distributed(l, l', q[i].validator, OpFor(q, i, targets, 0, reserve));
    assert Distributed(l, l', q[j].validator, OpFor(q, j, targets, 0, reserve));
    NotBehind(l, l', q, i, j, targets, reserve, v, level);
  }

  lemma NotBehind(
    l: Ledger, l': Ledger, q: seq<Entry>, i: nat, j: nat, targets: Targets, reserve: nat, v: ValidatorStake, level: nat)
    requires i < |q| && j < |q| && InOrder(q)
    requires q[i] == Entry(BalanceAt(l, StakeOf(v.voteAddress)), v) && ReadyToSplit(l, v)
    requires Distributed(l, l', v, OpFor(q, i, targets, 0, reserve))
    requires IsLevel(v.stakeState, targets, level) && LeftShort(l, l', v, level)
    requires ReadyToSplit(l, q[j].validator)
    requires Distributed(l, l', q[j].validator, OpFor(q, j, targets, 0, reserve))
    requires var transient := TransientOf(q[j].validator.voteAddress);
             transient in l' && l'[transient].activation == Activating
    ensures Precedes(q[j], q[i])
  {
    ShortInQueue(l, l', q, i, targets, reserve, v, level);
    GivenIfActivating(l, l', q[j].validator, OpFor(q, j, targets, 0, reserve));
  }

  lemma GivenIfActivating(l: Ledger, l': Ledger, v: ValidatorStake, op: Op)
    requires ReadyToSplit(l, v) && Distributed(l, l', v, op)
    ensures op.Adding? <==>
              TransientOf(v.voteAddress) in l' && l'[TransientOf(v.voteAddress)].activation == Activating
  {
  }
}
