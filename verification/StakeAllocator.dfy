/** The allocator at the heart of `distribute_validator_stake`. Both pools run the same code;
    they differ in the rent taken from the reserve for each increase (none in v0) and in the
    target of a validator that should get no stake (the account minimum in v0, zero otherwise). */
module StakeAllocator {
  import opened Collections
  import opened StakeTypes

  datatype Entry = Entry(balance: nat, validator: ValidatorStake)

  datatype Targets = Targets(none: nat, baseline: nat, bonus: nat)

  /** What was decided for one validator. */
  datatype Op =
    | NoChange
    | NotRemoving(amount: nat)
    | Removing(amount: nat)
    | NotAdding(amount: nat)
    | ReserveDepleted
    | Adding(amount: nat)

  /** A transaction to send. */
  datatype Order =
    | Decrease(validator: ValidatorStake, amount: nat)
    | Increase(validator: ValidatorStake, amount: nat)

  function Desired(targets: Targets, level: ValidatorStakeState): nat {
    match level
    case NoStake => targets.none
    case Baseline => targets.baseline
    case Bonus => targets.bonus
  }

  function AmountFor(targets: Targets): ValidatorStake -> nat {
    (v: ValidatorStake) => Desired(targets, v.stakeState)
  }

  /** What all validators together should have. */
  lemma {:induction false} SumOfLevels(desired: seq<ValidatorStake>, targets: Targets)
    ensures SumBy(desired, AmountFor(targets))
            == CountAt(desired, NoStake) * targets.none + CountAt(desired, Baseline) * targets.baseline
               + CountAt(desired, Bonus) * targets.bonus
  {
    if desired != [] {
      var n := |desired| - 1;
      SumOfLevels(desired[..n], targets);
      OneMoreAt(CountAt(desired[..n], NoStake), CountAt(desired[..n], Baseline), CountAt(desired[..n], Bonus),
                desired[n].stakeState, targets);
    }
  }

  lemma OneMoreAt(none: nat, baseline: nat, bonus: nat, state: ValidatorStakeState, targets: Targets)
    ensures none * targets.none + baseline * targets.baseline + bonus * targets.bonus + Desired(targets, state)
            == (none + if state == NoStake then 1 else 0) * targets.none
               + (baseline + if state == Baseline then 1 else 0) * targets.baseline
               + (bonus + if state == Bonus then 1 else 0) * targets.bonus
  {
    OneMore(none, targets.none);
    OneMore(baseline, targets.baseline);
    OneMore(bonus, targets.bonus);
  }

  lemma OneMore(count: nat, amount: nat)
    ensures (count + 1) * amount == count * amount + amount
  {
  }

  // ---------- The processing order ----------

  datatype Lane = PriorityLane | MinLane | BaselineLane | BonusLane

  function LaneOf(v: ValidatorStake): Lane {
    if v.priority then PriorityLane
    else match v.stakeState
      case NoStake => MinLane
      case Baseline => BaselineLane
      case Bonus => BonusLane
  }

  function InLane(entries: seq<Entry>, lane: Lane): (r: seq<Entry>)
    ensures forall e :: e in r ==> LaneOf(e.validator) == lane
  {
    if entries == [] then []
    else
      var e := entries[|entries| - 1];
      InLane(entries[..|entries| - 1], lane) + (if LaneOf(e.validator) == lane then [e] else [])
  }

  function Balance(e: Entry): int { e.balance }

  function Lanes(entries: seq<Entry>, lane: Lane): seq<Entry> {
    SortByKey(InLane(entries, lane), Balance)
  }

  /** Priority validators first, then the levels from lowest to highest, poorest first in each. */
  function Queue(entries: seq<Entry>): seq<Entry> {
    Lanes(entries, PriorityLane) + Lanes(entries, MinLane)
    + Lanes(entries, BaselineLane) + Lanes(entries, BonusLane)
  }

  lemma {:induction false} LaneCount(entries: seq<Entry>, lane: Lane, x: Entry)
    ensures multiset(InLane(entries, lane))[x] ==
            if LaneOf(x.validator) == lane then multiset(entries)[x] else 0
  {
    if entries == [] {
    } else {
      var n := |entries| - 1;
      LaneCount(entries[..n], lane, x);
      assert entries == entries[..n] + [entries[n]];
    }
  }

  lemma LanesPartition(entries: seq<Entry>)
    ensures multiset(entries) ==
            multiset(InLane(entries, PriorityLane)) + multiset(InLane(entries, MinLane))
            + multiset(InLane(entries, BaselineLane)) + multiset(InLane(entries, BonusLane))
  {
    forall x: Entry, lane: Lane
      ensures multiset(InLane(entries, lane))[x] ==
              if LaneOf(x.validator) == lane then multiset(entries)[x] else 0
    {
      LaneCount(entries, lane, x);
    }
  }

  /** No validator is lost or processed twice. */
  lemma QueueIsPermutation(entries: seq<Entry>)
    ensures multiset(Queue(entries)) == multiset(entries)
    ensures |Queue(entries)| == |entries|
  {
    LanesPartition(entries);
    forall lane: Lane
      ensures multiset(Lanes(entries, lane)) == multiset(InLane(entries, lane))
    {
      SortByKeyProperties(InLane(entries, lane), Balance);
    }
    assert |multiset(Queue(entries))| == |multiset(entries)|;
  }

  /** Who is served first: whoever was missed last epoch, then the lower level; the poorer one of two
      that are alike. */
  ghost predicate Precedes(a: Entry, b: Entry) {
    var v, w := a.validator, b.validator;
    if v.priority || w.priority then v.priority && (w.priority ==> a.balance <= b.balance)
    else if v.stakeState == w.stakeState then a.balance <= b.balance
    else v.stakeState == NoStake || w.stakeState == Bonus
  }

  ghost predicate InOrder(q: seq<Entry>) {
    forall i, j :: 0 <= i < j < |q| ==> Precedes(q[i], q[j])
  }

  lemma OneLaneInOrder(entries: seq<Entry>, lane: Lane)
    ensures InOrder(Lanes(entries, lane)) && AllIn(Lanes(entries, lane), lane)
  {
    SortByKeyProperties(InLane(entries, lane), Balance);
    SameElements(Lanes(entries, lane), InLane(entries, lane));
    var q := Lanes(entries, lane);
    forall i, j | 0 <= i < j < |q|
      ensures Precedes(q[i], q[j])
    {
      assert q[i] in q && q[j] in q;
      assert Balance(q[i]) <= Balance(q[j]);
    }
  }

  /** Validators flagged as missed last epoch jump the line, and within a lane the smaller
      balance is served first. */
  lemma QueueInOrder(entries: seq<Entry>)
    ensures InOrder(Queue(entries))
  {
    OneLaneInOrder(entries, PriorityLane);
    OneLaneInOrder(entries, MinLane);
    OneLaneInOrder(entries, BaselineLane);
    OneLaneInOrder(entries, BonusLane);
    LanesInOrder(Lanes(entries, PriorityLane), Lanes(entries, MinLane), Lanes(entries, BaselineLane),
                 Lanes(entries, BonusLane));
  }

  ghost predicate AllIn(q: seq<Entry>, lane: Lane) {
    forall e :: e in q ==> LaneOf(e.validator) == lane
  }

  lemma LanesInOrder(a: seq<Entry>, b: seq<Entry>, c: seq<Entry>, d: seq<Entry>)
    requires InOrder(a) && InOrder(b) && InOrder(c) && InOrder(d)
    requires AllIn(a, PriorityLane) && AllIn(b, MinLane) && AllIn(c, BaselineLane) && AllIn(d, BonusLane)
    ensures InOrder(a + b + c + d)
  {
    ConcatInOrder(c, d);
    ConcatInOrder(b, c + d);
    ConcatInOrder(a, b + (c + d));
    assert a + b + c + d == a + (b + (c + d));
  }

  ghost predicate Before(lane: Lane, later: Lane) {
    match lane
    case PriorityLane => later != PriorityLane
    case MinLane => later == BaselineLane || later == BonusLane
    case BaselineLane => later == BonusLane
    case BonusLane => false
  }

  lemma LanesPrecede(a: Entry, b: Entry)
    requires Before(LaneOf(a.validator), LaneOf(b.validator))
    ensures Precedes(a, b)
  {
  }

  lemma ConcatInOrder(p: seq<Entry>, q: seq<Entry>)
    requires InOrder(p) && InOrder(q)
    requires forall a, b :: a in p && b in q ==> Before(LaneOf(a.validator), LaneOf(b.validator))
    ensures InOrder(p + q)
  {
    forall i, j | 0 <= i < j < |p + q|
      ensures Precedes((p + q)[i], (p + q)[j])
    {
      if i < |p| <= j {
        assert p[i] in p && q[j - |p|] in q;
        LanesPrecede(p[i], q[j - |p|]);
      }
    }
  }

  // ---------- Who gets what, in closed form ----------

  /** The lamports the validator is short of, if that is enough to bother. */
  function Need(e: Entry, targets: Targets): nat {
    var desired := Desired(targets, e.validator.stakeState);
    if e.balance < desired && desired - e.balance >= MIN_STAKE_CHANGE_AMOUNT then desired - e.balance else 0
  }

  function Cost(e: Entry, targets: Targets, rent: nat): nat {
    if Need(e, targets) > 0 then Need(e, targets) + rent else 0
  }

  /** What fully funding the first `n` validators of the queue takes from the reserve. */
  function Demand(q: seq<Entry>, n: nat, targets: Targets, rent: nat): nat
    requires n <= |q|
  {
    if n == 0 then 0 else Demand(q, n - 1, targets, rent) + Cost(q[n - 1], targets, rent)
  }

  /** The decision for validator `i`, from the demand ahead of it and the initial reserve alone. */
  function OpFor(q: seq<Entry>, i: nat, targets: Targets, rent: nat, reserve: nat): Op
    requires i < |q|
  {
    var desired := Desired(targets, q[i].validator.stakeState);
    var balance := q[i].balance;
    if balance > desired then
      if balance - desired < MIN_STAKE_CHANGE_AMOUNT then NotRemoving(balance - desired)
      else Removing(balance - desired)
    else if balance == desired then
      NoChange
    else if desired - balance < MIN_STAKE_CHANGE_AMOUNT then
      NotAdding(desired - balance)
    else if Demand(q, i + 1, targets, rent) <= reserve then
      Adding(desired - balance)
    else if Demand(q, i, targets, rent) + rent + MIN_STAKE_CHANGE_AMOUNT <= reserve then
      Adding(reserve - Demand(q, i, targets, rent) - rent)
    else
      ReserveDepleted
  }

  function OrdersOf(v: ValidatorStake, op: Op): seq<Order> {
    match op
    case Removing(amount) => [Decrease(v, amount)]
    case Adding(amount) => [Increase(v, amount)]
    case _ => []
  }

  function Orders(q: seq<Entry>, n: nat, targets: Targets, rent: nat, reserve: nat): seq<Order>
    requires n <= |q|
  {
    if n == 0 then []
    else Orders(q, n - 1, targets, rent, reserve)
         + OrdersOf(q[n - 1].validator, OpFor(q, n - 1, targets, rent, reserve))
  }

  function Drawn(op: Op, rent: nat): nat {
    match op
    case Adding(amount) => amount + rent
    case _ => 0
  }

  /** What the first `n` decisions take out of the reserve. */
  function Spent(q: seq<Entry>, n: nat, targets: Targets, rent: nat, reserve: nat): nat
    requires n <= |q|
  {
    if n == 0 then 0
    else Spent(q, n - 1, targets, rent, reserve) + Drawn(OpFor(q, n - 1, targets, rent, reserve), rent)
  }

  function Unfunded(q: seq<Entry>, n: nat, targets: Targets, rent: nat, reserve: nat): set<Pubkey>
    requires n <= |q|
  {
    if n == 0 then {}
    else Unfunded(q, n - 1, targets, rent, reserve)
         + (if OpFor(q, n - 1, targets, rent, reserve) == ReserveDepleted then {q[n - 1].validator.identity} else {})
  }

  // ---------- The allocator ----------

  method SortIntoQueue(entries: seq<Entry>) returns (q: seq<Entry>)
    ensures q == Queue(entries)
  {
    var priorityStake, minStake, baselineStake, bonusStake := [], [], [], [];
    for i := 0 to |entries|
      invariant priorityStake == InLane(entries[..i], PriorityLane)
      invariant minStake == InLane(entries[..i], MinLane)
      invariant baselineStake == InLane(entries[..i], BaselineLane)
      invariant bonusStake == InLane(entries[..i], BonusLane)
    {
      assert entries[..i + 1][..i] == entries[..i];
      if entries[i].validator.priority {
        priorityStake := priorityStake + [entries[i]];
      } else {
        match entries[i].validator.stakeState {
          case NoStake => minStake := minStake + [entries[i]];
          case Baseline => baselineStake := baselineStake + [entries[i]];
          case Bonus => bonusStake := bonusStake + [entries[i]];
        }
      }
    }
    assert entries[..|entries|] == entries;
    priorityStake := SortByKey(priorityStake, Balance);
    minStake := SortByKey(minStake, Balance);
    baselineStake := SortByKey(baselineStake, Balance);
    bonusStake := SortByKey(bonusStake, Balance);

    q := priorityStake + minStake + baselineStake + bonusStake;
  }

  /** What is decided for a validator while `remaining` is left in the reserve. */
  ghost predicate Decided(e: Entry, targets: Targets, rent: nat, remaining: nat, op: Op) {
    var desired := Desired(targets, e.validator.stakeState);
    if Need(e, targets) == 0 then
      && (op == NoChange <==> e.balance == desired)
      && (op.Removing? || op.NotRemoving? <==> e.balance > desired)
      && (op.Removing? || op.NotRemoving? ==> op.amount == e.balance - desired)
      && (op.Removing? <==> e.balance >= desired + MIN_STAKE_CHANGE_AMOUNT)
      && (op.NotAdding? ==> op.amount == desired - e.balance)
      && !op.Adding? && op != ReserveDepleted
    else if Need(e, targets) + rent <= remaining then op == Adding(Need(e, targets))
    else if MIN_STAKE_CHANGE_AMOUNT + rent <= remaining then op == Adding(remaining - rent)
    else op == ReserveDepleted
  }

  method Decide(e: Entry, targets: Targets, rent: nat, remaining: nat) returns (op: Op, taken: nat)
    ensures taken == Drawn(op, rent) <= remaining
    ensures Decided(e, targets, rent, remaining, op)
  {
    var desiredBalance := Desired(targets, e.validator.stakeState);
    taken := 0;
    if e.balance > desiredBalance {
      var amountToRemove := e.balance - desiredBalance;
      if amountToRemove < MIN_STAKE_CHANGE_AMOUNT {
        op := NotRemoving(amountToRemove);
      } else {
        op := Removing(amountToRemove);
      }
    } else if e.balance < desiredBalance {
      var amountToAdd := desiredBalance - e.balance;
      var amountToTakeFromReserve := amountToAdd + rent;
      if amountToAdd < MIN_STAKE_CHANGE_AMOUNT {
        op := NotAdding(amountToAdd);
      } else {
        if amountToTakeFromReserve > remaining {
          amountToTakeFromReserve := remaining;
          amountToAdd := if amountToTakeFromReserve > rent then amountToTakeFromReserve - rent else 0;
        }
        if amountToAdd < MIN_STAKE_CHANGE_AMOUNT {
          op := ReserveDepleted;
        } else {
          taken := amountToTakeFromReserve;
          op := Adding(amountToAdd);
        }
      }
    } else {
      op := NoChange;
    }
  }

  /** What is left of the reserve when the demand of the first `i` validators has been met as far as it
      could be. */
  ghost predicate LeftOver(q: seq<Entry>, i: nat, targets: Targets, rent: nat, reserve: nat, remaining: nat)
    requires i <= |q|
  {
    if Demand(q, i, targets, rent) <= reserve then remaining == reserve - Demand(q, i, targets, rent)
    else remaining < rent + MIN_STAKE_CHANGE_AMOUNT
  }

  /** What is decided from the running reserve is what the closed form says. */
  lemma DecidedAsInClosedForm(q: seq<Entry>, i: nat, targets: Targets, rent: nat, reserve: nat, remaining: nat, op: Op)
    requires i < |q| && LeftOver(q, i, targets, rent, reserve, remaining)
    requires Decided(q[i], targets, rent, remaining, op) && Drawn(op, rent) <= remaining
    ensures op == OpFor(q, i, targets, rent, reserve)
    ensures LeftOver(q, i + 1, targets, rent, reserve, remaining - Drawn(op, rent))
  {
    assert Demand(q, i + 1, targets, rent) == Demand(q, i, targets, rent) + Cost(q[i], targets, rent);
  }

  method DrainReserve(q: seq<Entry>, targets: Targets, rent: nat, reserveStakeBalance: nat)
    returns (ops: seq<Op>, orders: seq<Order>, unfunded: set<Pubkey>, remaining: nat)
    ensures |ops| == |q|
    ensures forall i :: 0 <= i < |q| ==> ops[i] == OpFor(q, i, targets, rent, reserveStakeBalance)
    ensures orders == Orders(q, |q|, targets, rent, reserveStakeBalance)
    ensures unfunded == Unfunded(q, |q|, targets, rent, reserveStakeBalance)
    ensures remaining == reserveStakeBalance - Spent(q, |q|, targets, rent, reserveStakeBalance)
  {
    ops, orders, unfunded, remaining := [], [], {}, reserveStakeBalance;
    for i := 0 to |q|
      invariant |ops| == i
      invariant forall j :: 0 <= j < i ==> ops[j] == OpFor(q, j, targets, rent, reserveStakeBalance)
      invariant orders == Orders(q, i, targets, rent, reserveStakeBalance)
      invariant unfunded == Unfunded(q, i, targets, rent, reserveStakeBalance)
      invariant remaining == reserveStakeBalance - Spent(q, i, targets, rent, reserveStakeBalance)
      invariant LeftOver(q, i, targets, rent, reserveStakeBalance, remaining)
    {
      var op, taken := Decide(q[i], targets, rent, remaining);
      DecidedAsInClosedForm(q, i, targets, rent, reserveStakeBalance, remaining, op);
      remaining := remaining - taken;
      orders := orders + OrdersOf(q[i].validator, op);
      unfunded := if op == ReserveDepleted then unfunded + {q[i].validator.identity} else unfunded;
      ops := ops + [op];
    }
  }

  // ---------- What the allocation promises ----------

  lemma {:induction false} DemandMonotone(q: seq<Entry>, i: nat, j: nat, targets: Targets, rent: nat)
    requires i <= j <= |q|
    ensures Demand(q, i, targets, rent) <= Demand(q, j, targets, rent)
    decreases j
  {
    if i < j {
      DemandMonotone(q, i, j - 1, targets, rent);
    }
  }

  lemma {:induction false} SpentMonotone(q: seq<Entry>, i: nat, j: nat, targets: Targets, rent: nat, reserve: nat)
    requires i <= j <= |q|
    ensures Spent(q, i, targets, rent, reserve) <= Spent(q, j, targets, rent, reserve)
    decreases j
  {
    if i < j {
      SpentMonotone(q, i, j - 1, targets, rent, reserve);
    }
  }

  /** Along the queue the validators in need split into a fully funded prefix, at most one that is
      partially funded, and then only unfunded ones: once one of them gets less than it needs,
      every later one gets nothing. */
  lemma FundingShape(q: seq<Entry>, i: nat, j: nat, targets: Targets, rent: nat, reserve: nat)
    requires i < j < |q|
    requires Need(q[i], targets) > 0 && Need(q[j], targets) > 0
    requires OpFor(q, i, targets, rent, reserve) != Adding(Need(q[i], targets))
    ensures OpFor(q, j, targets, rent, reserve) == ReserveDepleted
  {
    DemandMonotone(q, i + 1, j, targets, rent);
  }

  /** What a decision may be for a balance and the amount it should come to: a surplus of at least the
      smallest change is removed to the lamport; whoever lacks that much is given no more than it lacks,
      or goes without; otherwise nothing changes. */
  predicate Approaches(balance: nat, target: nat, op: Op) {
    if balance >= target + MIN_STAKE_CHANGE_AMOUNT then op == Removing(balance - target)
    else if balance + MIN_STAKE_CHANGE_AMOUNT <= target then
      op == ReserveDepleted || (op.Adding? && MIN_STAKE_CHANGE_AMOUNT <= op.amount <= target - balance)
    else if balance > target then op == NotRemoving(balance - target)
    else if balance < target then op == NotAdding(target - balance)
    else op == NoChange
  }

  /** Each level has its own amount. */
  predicate ByLevel(e: Entry, targets: Targets, op: Op) {
    match e.validator.stakeState
    case NoStake => Approaches(e.balance, targets.none, op)
    case Baseline => Approaches(e.balance, targets.baseline, op)
    case Bonus => Approaches(e.balance, targets.bonus, op)
  }

  /** Every decision approaches the amount of the validator's level. */
  lemma DecisionsApproachTheLevels(q: seq<Entry>, i: nat, targets: Targets, rent: nat, reserve: nat)
    requires i < |q|
    ensures ByLevel(q[i], targets, OpFor(q, i, targets, rent, reserve))
  {
    DemandMonotone(q, i, i + 1, targets, rent);
  }

  /** `level` is the amount for validators in this state. */
  predicate IsLevel(state: ValidatorStakeState, targets: Targets, level: nat) {
    && (state == NoStake ==> level == targets.none)
    && (state == Baseline ==> level == targets.baseline)
    && (state == Bonus ==> level == targets.bonus)
  }

  /** Whoever lacks that much and is given less than it lacks has emptied the reserve, and nobody behind
      it is given anything. */
  lemma GivenInFullWhileItLasts(q: seq<Entry>, i: nat, targets: Targets, rent: nat, reserve: nat, level: nat)
    requires i < |q| && IsLevel(q[i].validator.stakeState, targets, level)
    requires var op := OpFor(q, i, targets, rent, reserve);
             op == ReserveDepleted || (op.Adding? && q[i].balance + op.amount < level)
    ensures Spent(q, i + 1, targets, rent, reserve) <= reserve < Spent(q, i + 1, targets, rent, reserve) + rent
                                                                  + MIN_STAKE_CHANGE_AMOUNT
    ensures forall j :: i < j < |q| ==> !OpFor(q, j, targets, rent, reserve).Adding?
  {
    ReserveAccounting(q, i + 1, targets, rent, reserve);
    forall j | i < j < |q|
      ensures !OpFor(q, j, targets, rent, reserve).Adding?
    {
      DemandMonotone(q, i + 1, j, targets, rent);
      DemandMonotone(q, j, j + 1, targets, rent);
    }
  }

  /** What carrying out an order takes out of the reserve. */
  function TakenBy(rent: nat): Order -> nat {
    (o: Order) => if o.Increase? then o.amount + rent else 0
  }

  lemma TakenByOne(v: ValidatorStake, op: Op, rent: nat)
    ensures SumBy(OrdersOf(v, op), TakenBy(rent)) == Drawn(op, rent)
  {
    SumOfOne(OrdersOf(v, op), TakenBy(rent));
  }

  /** What is spent is what the orders take. */
  lemma {:induction false} SpentOnOrders(q: seq<Entry>, n: nat, targets: Targets, rent: nat, reserve: nat)
    requires n <= |q|
    ensures Spent(q, n, targets, rent, reserve) == SumBy(Orders(q, n, targets, rent, reserve), TakenBy(rent))
  {
    if n > 0 {
      SpentOnOrders(q, n - 1, targets, rent, reserve);
      var op := OpFor(q, n - 1, targets, rent, reserve);
      SumByAppend(Orders(q, n - 1, targets, rent, reserve), OrdersOf(q[n - 1].validator, op), TakenBy(rent));
      TakenByOne(q[n - 1].validator, op, rent);
    }
  }

  /** An order is issued exactly when it was decided for one of the first `n` validators. */
  lemma {:induction false} OrderIffDecided(
    q: seq<Entry>, n: nat, targets: Targets, rent: nat, reserve: nat, o: Order)
    requires n <= |q|
    ensures o in Orders(q, n, targets, rent, reserve) <==>
            exists i :: 0 <= i < n && OrdersOf(q[i].validator, OpFor(q, i, targets, rent, reserve)) == [o]
  {
    if n > 0 {
      OrderIffDecided(q, n - 1, targets, rent, reserve, o);
    }
  }

  /** A validator goes unfunded exactly when that was decided for it. */
  lemma {:induction false} UnfundedIffDecided(
    q: seq<Entry>, n: nat, targets: Targets, rent: nat, reserve: nat, identity: Pubkey)
    requires n <= |q|
    ensures identity in Unfunded(q, n, targets, rent, reserve) <==>
            exists i ::
              0 <= i < n && q[i].validator.identity == identity
              && OpFor(q, i, targets, rent, reserve) == ReserveDepleted
  {
    if n > 0 {
      UnfundedIffDecided(q, n - 1, targets, rent, reserve, identity);
    }
  }

  /** A funded validator gets at least the smallest change and never more than it is short of;
      a validator that is drained keeps exactly its target. */
  lemma NoOvershoot(q: seq<Entry>, i: nat, targets: Targets, rent: nat, reserve: nat)
    requires i < |q|
    ensures var op := OpFor(q, i, targets, rent, reserve);
            var desired := Desired(targets, q[i].validator.stakeState);
            && (op.Adding? ==> op.amount >= MIN_STAKE_CHANGE_AMOUNT && q[i].balance + op.amount <= desired)
            && (op.Removing? ==> op.amount >= MIN_STAKE_CHANGE_AMOUNT && q[i].balance - op.amount == desired)
            && ((op.Adding? || op == ReserveDepleted) <==> Need(q[i], targets) > 0)
  {
    DemandMonotone(q, i, i + 1, targets, rent);
  }

  /** The reserve is never overdrawn. It covers the whole demand exactly when everyone in need is
      fully funded, and otherwise what is left is too little for one more change. */
  lemma {:induction false} ReserveAccounting(q: seq<Entry>, n: nat, targets: Targets, rent: nat, reserve: nat)
    requires n <= |q|
    ensures Spent(q, n, targets, rent, reserve) <= reserve
    ensures Demand(q, n, targets, rent) <= reserve ==>
              Spent(q, n, targets, rent, reserve) == Demand(q, n, targets, rent)
    ensures Demand(q, n, targets, rent) > reserve ==>
              reserve - Spent(q, n, targets, rent, reserve) < rent + MIN_STAKE_CHANGE_AMOUNT
  {
    if n > 0 {
      ReserveAccounting(q, n - 1, targets, rent, reserve);
    }
  }

  // ---------- What the orders come to ----------

  /** An order that approaches the amount its validator should have. */
  predicate OrderFits(o: Order, balance: nat, level: nat) {
    if o.Decrease? then MIN_STAKE_CHANGE_AMOUNT <= o.amount && balance - o.amount == level
    else MIN_STAKE_CHANGE_AMOUNT <= o.amount && balance + o.amount <= level
  }

  /** All orders for `v` fit; there is one if `v` has or lacks enough to bother, unless it goes unfunded. */
  ghost predicate DecidedOn(v: ValidatorStake, balance: nat, level: nat, orders: seq<Order>, unfunded: set<Pubkey>) {
    && (forall o :: o in orders && o.validator == v ==> OrderFits(o, balance, level))
    && (balance >= level + MIN_STAKE_CHANGE_AMOUNT ==> exists o :: o in orders && o.validator == v)
    && (balance + MIN_STAKE_CHANGE_AMOUNT <= level ==>
          v.identity in unfunded || exists o :: o in orders && o.validator == v)
  }

  /** The orders on a queue in which the validator always has the same balance. */
  lemma OneIsDecidedOn(
    q: seq<Entry>, i: nat, targets: Targets, rent: nat, reserve: nat, v: ValidatorStake, balance: nat, level: nat)
    requires i < |q| && q[i] == Entry(balance, v) && IsLevel(v.stakeState, targets, level)
    requires forall e :: e in q && e.validator == v ==> e.balance == balance
    ensures DecidedOn(v, balance, level, Orders(q, |q|, targets, rent, reserve),
                      Unfunded(q, |q|, targets, rent, reserve))
  {
    forall o | o in Orders(q, |q|, targets, rent, reserve) && o.validator == v
      ensures OrderFits(o, balance, level)
    {
      OrderIffDecided(q, |q|, targets, rent, reserve, o);
      var j :| 0 <= j < |q| && OrdersOf(q[j].validator, OpFor(q, j, targets, rent, reserve)) == [o];
      DecisionsApproachTheLevels(q, j, targets, rent, reserve);
    }
    DecisionsApproachTheLevels(q, i, targets, rent, reserve);
    var op := OpFor(q, i, targets, rent, reserve);
    if OrdersOf(v, op) != [] {
      OrderIffDecided(q, |q|, targets, rent, reserve, OrdersOf(v, op)[0]);
    } else {
      UnfundedIffDecided(q, |q|, targets, rent, reserve, v.identity);
    }
  }

  lemma NothingBehind(q: seq<Entry>, i: nat, targets: Targets, rent: nat, reserve: nat, level: nat)
    requires i < |q| && IsLevel(q[i].validator.stakeState, targets, level)
    requires q[i].balance + MIN_STAKE_CHANGE_AMOUNT <= level
    requires Increase(q[i].validator, level - q[i].balance) !in Orders(q, |q|, targets, rent, reserve)
    ensures forall j :: i < j < |q| ==> !OpFor(q, j, targets, rent, reserve).Adding?
  {
    OrderIffDecided(q, |q|, targets, rent, reserve, Increase(q[i].validator, level - q[i].balance));
    DecisionsApproachTheLevels(q, i, targets, rent, reserve);
    GivenInFullWhileItLasts(q, i, targets, rent, reserve, level);
  }

  /** Whoever lacks enough to bother and is not given all of it leaves nothing for those behind it. */
  lemma NobodyBehindIsGiven(
    q: seq<Entry>, targets: Targets, rent: nat, reserve: nat, a: Entry, b: Entry, level: nat, amount: nat)
    requires InOrder(q) && a in q && !Precedes(b, a) && IsLevel(a.validator.stakeState, targets, level)
    requires forall e :: e in q && e.validator == b.validator ==> e == b
    requires a.balance + MIN_STAKE_CHANGE_AMOUNT <= level
    requires Increase(a.validator, level - a.balance) !in Orders(q, |q|, targets, rent, reserve)
    ensures Increase(b.validator, amount) !in Orders(q, |q|, targets, rent, reserve)
  {
    var i :| 0 <= i < |q| && q[i] == a;
    NothingBehind(q, i, targets, rent, reserve, level);
    OrderIffDecided(q, |q|, targets, rent, reserve, Increase(b.validator, amount));
    forall j | 0 <= j < |q| && q[j].validator == b.validator
      ensures i < j
    {
      assert q[j] == b;
    }
  }

  /** Every entry is for a validator of its own. */
  ghost predicate DistinctEntries(q: seq<Entry>) {
    forall i, j :: 0 <= i < j < |q| ==> q[i].validator != q[j].validator
  }

  lemma QueueDistinct(entries: seq<Entry>)
    requires DistinctEntries(entries)
    ensures DistinctEntries(Queue(entries))
  {
    QueueIsPermutation(entries);
    var q := Queue(entries);
    forall i, j | 0 <= i < j < |q|
      ensures q[i].validator != q[j].validator
    {
      var a, b := TwoPlaces(entries, q, i, j);
    }
  }

  ghost predicate OneEach(orders: seq<Order>) {
    forall i, j :: 0 <= i < j < |orders| ==> orders[i].validator != orders[j].validator
  }

  lemma OneMoreEach(orders: seq<Order>, last: seq<Order>)
    requires OneEach(orders) && |last| <= 1
    requires forall o, p :: o in orders && p in last ==> o.validator != p.validator
    ensures OneEach(orders + last)
  {
  }

  /** The first `n` of a queue of different validators have one order each, at most. */
  lemma {:induction false} OneOrderEach(q: seq<Entry>, n: nat, targets: Targets, rent: nat, reserve: nat)
    requires n <= |q| && DistinctEntries(q)
    ensures OneEach(Orders(q, n, targets, rent, reserve))
  {
    if n > 0 {
      OneOrderEach(q, n - 1, targets, rent, reserve);
      forall o | o in Orders(q, n - 1, targets, rent, reserve)
        ensures o.validator != q[n - 1].validator
      {
        OrderIffDecided(q, n - 1, targets, rent, reserve, o);
        var i :| 0 <= i < n - 1 && OrdersOf(q[i].validator, OpFor(q, i, targets, rent, reserve)) == [o];
        assert q[i].validator != q[n - 1].validator;
      }
      OneMoreEach(Orders(q, n - 1, targets, rent, reserve),
                  OrdersOf(q[n - 1].validator, OpFor(q, n - 1, targets, rent, reserve)));
    }
  }

  // ---------- Handing out ----------

  /** Buckets and sorts the validators, then drains the reserve one validator at a time. */
  method DistributeValidatorStake(entries: seq<Entry>, targets: Targets, rent: nat, reserveStakeBalance: nat)
    returns (q: seq<Entry>, ops: seq<Op>, orders: seq<Order>, unfunded: set<Pubkey>, remaining: nat)
    ensures q == Queue(entries) && multiset(q) == multiset(entries) && InOrder(q)
    ensures |ops| == |q|
    ensures forall i :: 0 <= i < |q| ==> ops[i] == OpFor(q, i, targets, rent, reserveStakeBalance)
    ensures forall i :: 0 <= i < |q| ==> ByLevel(q[i], targets, ops[i])
    ensures orders == Orders(q, |q|, targets, rent, reserveStakeBalance)
    ensures unfunded == Unfunded(q, |q|, targets, rent, reserveStakeBalance)
    ensures remaining == reserveStakeBalance - Spent(q, |q|, targets, rent, reserveStakeBalance)
    ensures remaining == reserveStakeBalance - SumBy(orders, TakenBy(rent))
  {
    q := SortIntoQueue(entries);
    ops, orders, unfunded, remaining := DrainReserve(q, targets, rent, reserveStakeBalance);
    QueueIsPermutation(entries);
    QueueInOrder(entries);
    SpentOnOrders(q, |q|, targets, rent, reserveStakeBalance);
    forall i | 0 <= i < |q|
      ensures ByLevel(q[i], targets, ops[i])
    {
      DecisionsApproachTheLevels(q, i, targets, rent, reserveStakeBalance);
    }
  }
}
