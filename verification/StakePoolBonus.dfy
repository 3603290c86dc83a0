/** How the pool of stake_pool.rs sets its bonus target, and why the rent it holds back is enough
    for every increase the allocator may then issue. */
module StakePoolBonus {
  import opened Arithmetic
  import opened Collections
  import opened StakeTypes
  import opened StakeAllocator

  /** The pool's validator list: stake lamports by vote address. */
  type ValidatorList = map<Pubkey, nat>

  datatype Error = NotEnoughStakeToCoverBaseline

  // ---------- The targets ----------

  /** Whether an increase may be required, judged with the estimate made before rent is held back. */
  function MayIncrease(list: ValidatorList, baseline: nat, estimate: nat): ValidatorStake -> nat {
    (x: ValidatorStake) =>
      if x.voteAddress !in list then 0
      else if x.stakeState == Bonus && list[x.voteAddress] < estimate then 1
      else if x.stakeState == Baseline && list[x.voteAddress] < baseline then 1
      else 0
  }

  function NumberOfIncreases(desired: seq<ValidatorStake>, list: ValidatorList, baseline: nat, estimate: nat): nat {
    SumBy(desired, MayIncrease(list, baseline, estimate))
  }

  function TotalBonus(total: nat, desired: seq<ValidatorStake>, baseline: nat): nat {
    var committed := CountAt(desired, Baseline) * baseline;
    if total >= committed then total - committed else 0
  }

  function BonusEstimate(total: nat, desired: seq<ValidatorStake>, baseline: nat): nat
    requires CountAt(desired, Bonus) > 0
  {
    TotalBonus(total, desired, baseline) / CountAt(desired, Bonus)
  }

  /** The rent left out of the bonus total. */
  function HeldRent(total: nat, desired: seq<ValidatorStake>, list: ValidatorList, baseline: nat, rent: nat): nat
    requires CountAt(desired, Bonus) > 0
  {
    NumberOfIncreases(desired, list, baseline, BonusEstimate(total, desired, baseline)) * rent
  }

  function BonusStakeAmount(
    total: nat, desired: seq<ValidatorStake>, list: ValidatorList, baseline: nat, rent: nat): nat
  {
    var count := CountAt(desired, Bonus);
    if count == 0 then 0
    else
      var totalBonus, held := TotalBonus(total, desired, baseline), HeldRent(total, desired, list, baseline, rent);
      (if totalBonus >= held then totalBonus - held else 0) / count
  }

  function ComputeTargets(total: nat, desired: seq<ValidatorStake>, list: ValidatorList, baseline: nat, rent: nat)
    : Result<Targets, Error>
  {
    if total < CountAt(desired, Baseline) * baseline then Err(NotEnoughStakeToCoverBaseline)
    else Ok(Targets(0, baseline, BonusStakeAmount(total, desired, list, baseline, rent)))
  }

  // ---------- What reaches the allocator ----------

  /** The validators that are not busy and are in the pool, with their pool balance. */
  function Entries(desired: seq<ValidatorStake>, busy: set<Pubkey>, list: ValidatorList): seq<Entry> {
    if desired == [] then []
    else
      var x := desired[|desired| - 1];
      Entries(desired[..|desired| - 1], busy, list)
      + (if x.identity !in busy && x.voteAddress in list then [Entry(list[x.voteAddress], x)] else [])
  }

  /** They are all of them, each with the balance that the pool's list gives. */
  lemma {:induction false} EntriesAreOfThePool(
    desired: seq<ValidatorStake>, busy: set<Pubkey>, list: ValidatorList, e: Entry)
    ensures e in Entries(desired, busy, list) <==>
              && e.validator in desired && e.validator.identity !in busy
              && e.validator.voteAddress in list && e.balance == list[e.validator.voteAddress]
  {
    if desired != [] {
      EntriesAreOfThePool(desired[..|desired| - 1], busy, list, e);
      assert desired == desired[..|desired| - 1] + [desired[|desired| - 1]];
    }
  }

  lemma {:induction false} EntriesDistinct(desired: seq<ValidatorStake>, busy: set<Pubkey>, list: ValidatorList)
    requires Distinct(desired)
    ensures DistinctEntries(Entries(desired, busy, list))
  {
    if desired != [] {
      var n := |desired| - 1;
      EntriesDistinct(desired[..n], busy, list);
      var earlier := Entries(desired[..n], busy, list);
      forall i | 0 <= i < |earlier|
        ensures earlier[i].validator != desired[n]
      {
        EntriesAreOfThePool(desired[..n], busy, list, earlier[i]);
      }
    }
  }

  function IsIncrease(o: Order): nat { if o.Increase? then 1 else 0 }

  function IncreasesIn(orders: seq<Order>): nat {
    SumBy(orders, IsIncrease)
  }

  function BelowTarget(targets: Targets): Entry -> nat {
    (e: Entry) => if e.balance < Desired(targets, e.validator.stakeState) then 1 else 0
  }

  function Needy(targets: Targets): Entry -> nat {
    (e: Entry) => if Need(e, targets) > 0 then 1 else 0
  }

  /** Only validators in need get an increase, and with a reserve that covers the whole demand all of
      them do. */
  lemma {:induction false} OnlyTheNeedyIncrease(q: seq<Entry>, n: nat, targets: Targets, rent: nat, reserve: nat)
    requires n <= |q|
    ensures IncreasesIn(Orders(q, n, targets, rent, reserve)) <= SumBy(q[..n], Needy(targets))
    ensures Demand(q, n, targets, rent) <= reserve ==>
              IncreasesIn(Orders(q, n, targets, rent, reserve)) == SumBy(q[..n], Needy(targets))
  {
    if n > 0 {
      OnlyTheNeedyIncrease(q, n - 1, targets, rent, reserve);
      assert q[..n][..n - 1] == q[..n - 1];
      DemandMonotone(q, n - 1, n, targets, rent);
      var op := OpFor(q, n - 1, targets, rent, reserve);
      SumByAppend(Orders(q, n - 1, targets, rent, reserve), OrdersOf(q[n - 1].validator, op), IsIncrease);
      OneOrderIfAdding(q[n - 1].validator, op);
      AddsIffWithinReach(q, n - 1, targets, rent, reserve);
    }
  }

  lemma {:induction false} TheNeedyWereCounted(
    desired: seq<ValidatorStake>, busy: set<Pubkey>, list: ValidatorList, baseline: nat, estimate: nat, bonus: nat)
    requires bonus <= estimate
    ensures SumBy(Entries(desired, busy, list), BelowTarget(Targets(0, baseline, bonus)))
            <= NumberOfIncreases(desired, list, baseline, estimate)
  {
    if desired == [] {
    } else {
      var n := |desired| - 1;
      var x := desired[n];
      TheNeedyWereCounted(desired[..n], busy, list, baseline, estimate, bonus);
      if x.identity !in busy && x.voteAddress in list {
        var e := Entry(list[x.voteAddress], x);
        var below := BelowTarget(Targets(0, baseline, bonus));
        SumByAppend(Entries(desired[..n], busy, list), [e], below);
        SumOfOne([e], below);
        assert below(e) <= MayIncrease(list, baseline, estimate)(x);
      } else {
        assert Entries(desired, busy, list) == Entries(desired[..n], busy, list);
      }
    }
  }

  /** With the estimate for a target and nobody busy, the count is exact. */
  lemma {:induction false} CountIsExact(
    desired: seq<ValidatorStake>, list: ValidatorList, baseline: nat, estimate: nat)
    ensures NumberOfIncreases(desired, list, baseline, estimate)
            == SumBy(Entries(desired, {}, list), BelowTarget(Targets(0, baseline, estimate)))
  {
    if desired != [] {
      var n := |desired| - 1;
      var x := desired[n];
      CountIsExact(desired[..n], list, baseline, estimate);
      if x.voteAddress in list {
        var e := Entry(list[x.voteAddress], x);
        var below := BelowTarget(Targets(0, baseline, estimate));
        SumByAppend(Entries(desired[..n], {}, list), [e], below);
        SumOfOne([e], below);
        assert below(e) == MayIncrease(list, baseline, estimate)(x);
      } else {
        assert Entries(desired, {}, list) == Entries(desired[..n], {}, list);
      }
    }
  }

  lemma HoldingBackLowersTheTarget(
    total: nat, desired: seq<ValidatorStake>, list: ValidatorList, baseline: nat, rent: nat)
    requires CountAt(desired, Bonus) > 0
    ensures BonusStakeAmount(total, desired, list, baseline, rent) <= BonusEstimate(total, desired, baseline)
  {
    var totalBonus, held := TotalBonus(total, desired, baseline), HeldRent(total, desired, list, baseline, rent);
    QuotientMonotone(if totalBonus >= held then totalBonus - held else 0, totalBonus, CountAt(desired, Bonus));
  }

  function Issued(
    desired: seq<ValidatorStake>, busy: set<Pubkey>, list: ValidatorList, targets: Targets, rent: nat,
    reserve: nat): nat
  {
    var q := Queue(Entries(desired, busy, list));
    IncreasesIn(Orders(q, |q|, targets, rent, reserve))
  }

  /** The validators of the pool that an increase would bring closer to their targets. */
  function MostIncreases(desired: seq<ValidatorStake>, busy: set<Pubkey>, list: ValidatorList, targets: Targets): nat {
    SumBy(Entries(desired, busy, list), Needy(targets))
  }

  lemma IssuedAtMost(
    desired: seq<ValidatorStake>, busy: set<Pubkey>, list: ValidatorList, targets: Targets, rent: nat, reserve: nat)
    ensures Issued(desired, busy, list, targets, rent, reserve) <= MostIncreases(desired, busy, list, targets)
  {
    var entries := Entries(desired, busy, list);
    var q := Queue(entries);
    OnlyTheNeedyIncrease(q, |q|, targets, rent, reserve);
    assert q[..|q|] == q;
    QueueIsPermutation(entries);
    SumByPermutation(q, entries, Needy(targets));
  }

  /** With a large enough reserve everyone in need is given an increase. */
  lemma MostIsReached(desired: seq<ValidatorStake>, busy: set<Pubkey>, list: ValidatorList, targets: Targets, rent: nat)
    returns (reserve: nat)
    ensures Issued(desired, busy, list, targets, rent, reserve) == MostIncreases(desired, busy, list, targets)
  {
    var entries := Entries(desired, busy, list);
    var q := Queue(entries);
    reserve := Demand(q, |q|, targets, rent);
    OnlyTheNeedyIncrease(q, |q|, targets, rent, reserve);
    assert q[..|q|] == q;
    QueueIsPermutation(entries);
    SumByPermutation(q, entries, Needy(targets));
  }

  lemma {:induction false} BusyOnlyLess(
    desired: seq<ValidatorStake>, busy: set<Pubkey>, list: ValidatorList, targets: Targets)
    ensures MostIncreases(desired, busy, list, targets) <= MostIncreases(desired, {}, list, targets)
  {
    if desired != [] {
      var n := |desired| - 1;
      var x := desired[n];
      BusyOnlyLess(desired[..n], busy, list, targets);
      if x.voteAddress in list {
        var e := Entry(list[x.voteAddress], x);
        SumByAppend(Entries(desired[..n], {}, list), [e], Needy(targets));
        if x.identity !in busy {
          SumByAppend(Entries(desired[..n], busy, list), [e], Needy(targets));
        }
        SumOfOne([e], Needy(targets));
      }
      assert Entries(desired[..n], busy, list) + [] == Entries(desired[..n], busy, list);
      assert Entries(desired[..n], {}, list) + [] == Entries(desired[..n], {}, list);
    }
  }

  /** All targets, and rent for every increase that is issued, fit in the pool. */
  predicate Fits(
    total: nat, desired: seq<ValidatorStake>, busy: set<Pubkey>, list: ValidatorList, targets: Targets, rent: nat,
    reserve: nat)
  {
    CountAt(desired, Baseline) * targets.baseline + CountAt(desired, Bonus) * targets.bonus
    + Issued(desired, busy, list, targets, rent, reserve) * rent <= total
  }

  /** Whatever validators are busy and whatever is in the reserve, they fit if and only if there is room
      for rent for everyone in need. This holds for any number of Bonus validators. */
  lemma FitsIff(total: nat, desired: seq<ValidatorStake>, list: ValidatorList, targets: Targets, rent: nat)
    ensures (forall busy, reserve :: Fits(total, desired, busy, list, targets, rent, reserve)) <==>
              CountAt(desired, Baseline) * targets.baseline + CountAt(desired, Bonus) * targets.bonus
              + MostIncreases(desired, {}, list, targets) * rent <= total
  {
    var committed := CountAt(desired, Baseline) * targets.baseline + CountAt(desired, Bonus) * targets.bonus;
    var most := MostIncreases(desired, {}, list, targets);
    if committed + most * rent <= total {
      forall busy, reserve
        ensures Fits(total, desired, busy, list, targets, rent, reserve)
      {
        IssuedAtMost(desired, busy, list, targets, rent, reserve);
        BusyOnlyLess(desired, busy, list, targets);
        MulMonotone(Issued(desired, busy, list, targets, rent, reserve), most, rent);
      }
    } else {
      var reserve := MostIsReached(desired, {}, list, targets, rent);
      assert !Fits(total, desired, {}, list, targets, rent, reserve);
    }
  }

  /** How many of the first `n` validators are in need and find room for rent and the smallest increase
      behind the demand ahead of them. */
  function WithinReach(q: seq<Entry>, n: nat, targets: Targets, rent: nat, reserve: nat): nat
    requires n <= |q|
  {
    if n == 0 then 0
    else
      WithinReach(q, n - 1, targets, rent, reserve)
      + if Need(q[n - 1], targets) > 0
           && Demand(q, n - 1, targets, rent) + rent + MIN_STAKE_CHANGE_AMOUNT <= reserve
        then 1 else 0
  }

  lemma AddsIffWithinReach(q: seq<Entry>, i: nat, targets: Targets, rent: nat, reserve: nat)
    requires i < |q|
    ensures OpFor(q, i, targets, rent, reserve).Adding? <==>
              Need(q[i], targets) > 0 && Demand(q, i, targets, rent) + rent + MIN_STAKE_CHANGE_AMOUNT <= reserve
  {
    assert Demand(q, i + 1, targets, rent) == Demand(q, i, targets, rent) + Cost(q[i], targets, rent);
  }

  lemma OneOrderIfAdding(v: ValidatorStake, op: Op)
    ensures IncreasesIn(OrdersOf(v, op)) == if op.Adding? then 1 else 0
  {
    SumOfOne(OrdersOf(v, op), IsIncrease);
  }

  /** They are the ones that are given an increase. */
  lemma {:induction false} IncreasesAreWithinReach(
    q: seq<Entry>, n: nat, targets: Targets, rent: nat, reserve: nat)
    requires n <= |q|
    ensures IncreasesIn(Orders(q, n, targets, rent, reserve)) == WithinReach(q, n, targets, rent, reserve)
  {
    if n > 0 {
      IncreasesAreWithinReach(q, n - 1, targets, rent, reserve);
      var op := OpFor(q, n - 1, targets, rent, reserve);
      SumByAppend(Orders(q, n - 1, targets, rent, reserve), OrdersOf(q[n - 1].validator, op), IsIncrease);
      OneOrderIfAdding(q[n - 1].validator, op);
      AddsIffWithinReach(q, n - 1, targets, rent, reserve);
    }
  }

  lemma {:induction false} MoreReserveReachesMore(
    q: seq<Entry>, n: nat, targets: Targets, rent: nat, reserve: nat, more: nat)
    requires n <= |q| && reserve <= more
    ensures WithinReach(q, n, targets, rent, reserve) <= WithinReach(q, n, targets, rent, more)
  {
    if n > 0 {
      MoreReserveReachesMore(q, n - 1, targets, rent, reserve, more);
    }
  }

  /** The reserve is part of the pool. Whatever part of it that is, targets and rent fit if and only if
      there is room for rent for everyone within reach of a reserve that holds the whole pool. */
  lemma FitsInPoolIff(
    total: nat, desired: seq<ValidatorStake>, busy: set<Pubkey>, list: ValidatorList, targets: Targets, rent: nat)
    ensures (forall reserve: nat :: reserve <= total ==> Fits(total, desired, busy, list, targets, rent, reserve)) <==>
              var q := Queue(Entries(desired, busy, list));
              CountAt(desired, Baseline) * targets.baseline + CountAt(desired, Bonus) * targets.bonus
              + WithinReach(q, |q|, targets, rent, total) * rent <= total
  {
    var q := Queue(Entries(desired, busy, list));
    var committed := CountAt(desired, Baseline) * targets.baseline + CountAt(desired, Bonus) * targets.bonus;
    var reach := WithinReach(q, |q|, targets, rent, total);
    IncreasesAreWithinReach(q, |q|, targets, rent, total);
    assert Fits(total, desired, busy, list, targets, rent, total) <==> committed + reach * rent <= total;
    if committed + reach * rent <= total {
      forall reserve: nat | reserve <= total
        ensures Fits(total, desired, busy, list, targets, rent, reserve)
      {
        IncreasesAreWithinReach(q, |q|, targets, rent, reserve);
        MoreReserveReachesMore(q, |q|, targets, rent, reserve, total);
        MulMonotone(WithinReach(q, |q|, targets, rent, reserve), reach, rent);
      }
    }
  }

  lemma IssuedAtMostCounted(
    desired: seq<ValidatorStake>, busy: set<Pubkey>, list: ValidatorList, baseline: nat, estimate: nat, bonus: nat,
    rent: nat, reserve: nat)
    requires bonus <= estimate
    ensures Issued(desired, busy, list, Targets(0, baseline, bonus), rent, reserve)
            <= NumberOfIncreases(desired, list, baseline, estimate)
  {
    var targets := Targets(0, baseline, bonus);
    IssuedAtMost(desired, busy, list, targets, rent, reserve);
    SumByBound(Entries(desired, busy, list), Needy(targets), BelowTarget(targets));
    TheNeedyWereCounted(desired, busy, list, baseline, estimate, bonus);
  }

  /** The increases actually issued never outnumber the ones rent was held back for, although that
      count was made against a higher target, whatever validators are busy and whatever is left in
      the reserve. */
  lemma IncreasesWereReserved(
    total: nat, desired: seq<ValidatorStake>, busy: set<Pubkey>, list: ValidatorList, baseline: nat, rent: nat,
    reserve: nat)
    requires CountAt(desired, Bonus) > 0
    ensures Issued(desired, busy, list,
                   Targets(0, baseline, BonusStakeAmount(total, desired, list, baseline, rent)), rent, reserve)
            <= NumberOfIncreases(desired, list, baseline, BonusEstimate(total, desired, baseline))
  {
    HoldingBackLowersTheTarget(total, desired, list, baseline, rent);
    IssuedAtMostCounted(desired, busy, list, baseline, BonusEstimate(total, desired, baseline),
                        BonusStakeAmount(total, desired, list, baseline, rent), rent, reserve);
  }

  lemma FitArithmetic(total: nat, baselines: nat, held: nat, drawn: nat, count: nat)
    requires count > 0 && drawn <= held && baselines + held <= total
    ensures var shared := count * ((total - baselines - held) / count);
            && baselines + shared + drawn <= total
            && total - count < baselines + shared + held <= total
  {
    DivideAndMultiply(total - baselines - held, count);
  }

  lemma TargetsFit(
    total: nat, desired: seq<ValidatorStake>, list: ValidatorList, baseline: nat, rent: nat, issued: nat)
    requires CountAt(desired, Bonus) > 0
    requires total >= CountAt(desired, Baseline) * baseline
    requires HeldRent(total, desired, list, baseline, rent) <= TotalBonus(total, desired, baseline)
    requires issued <= NumberOfIncreases(desired, list, baseline, BonusEstimate(total, desired, baseline))
    ensures var bonus := BonusStakeAmount(total, desired, list, baseline, rent);
            var committed := CountAt(desired, Baseline) * baseline + CountAt(desired, Bonus) * bonus;
            && committed + issued * rent <= total
            && total - CountAt(desired, Bonus) < committed + HeldRent(total, desired, list, baseline, rent) <= total
  {
    var number := NumberOfIncreases(desired, list, baseline, BonusEstimate(total, desired, baseline));
    MulMonotone(issued, number, rent);
    FitArithmetic(total, CountAt(desired, Baseline) * baseline, number * rent, issued * rent, CountAt(desired, Bonus));
  }

  /** The rent for every increase that the estimate calls for: an equal share of what the baseline targets
      leave. */
  function RentForEstimate(total: nat, desired: seq<ValidatorStake>, list: ValidatorList, baseline: nat, rent: nat)
    : nat
    requires CountAt(desired, Bonus) > 0 && total >= CountAt(desired, Baseline) * baseline
  {
    var estimate := (total - CountAt(desired, Baseline) * baseline) / CountAt(desired, Bonus);
    NumberOfIncreases(desired, list, baseline, estimate) * rent
  }

  /** When what the baseline targets leave covers that rent, every baseline and bonus target, plus rent for
      every increase issued, fits in the pool, and only a division remainder, smaller than the number of
      Bonus validators, is not handed out. Otherwise Bonus validators get nothing. */
  lemma TargetsAndRentFit(
    total: nat, desired: seq<ValidatorStake>, busy: set<Pubkey>, list: ValidatorList, baseline: nat, rent: nat,
    reserve: nat)
    requires CountAt(desired, Bonus) > 0
    requires total >= CountAt(desired, Baseline) * baseline
    ensures var bonus := BonusStakeAmount(total, desired, list, baseline, rent);
            var committed := CountAt(desired, Baseline) * baseline + CountAt(desired, Bonus) * bonus;
            var held := RentForEstimate(total, desired, list, baseline, rent);
            if CountAt(desired, Baseline) * baseline + held <= total then
              && committed + Issued(desired, busy, list, Targets(0, baseline, bonus), rent, reserve) * rent <= total
              && total - CountAt(desired, Bonus) < committed + held <= total
            else bonus == 0
  {
    IncreasesWereReserved(total, desired, busy, list, baseline, rent, reserve);
    var bonus := BonusStakeAmount(total, desired, list, baseline, rent);
    if CountAt(desired, Baseline) * baseline + RentForEstimate(total, desired, list, baseline, rent) <= total {
      TargetsFit(total, desired, list, baseline, rent,
                 Issued(desired, busy, list, Targets(0, baseline, bonus), rent, reserve));
    } else {
      QuotientOfZero(CountAt(desired, Bonus));
    }
  }

  lemma QuotientOfZero(d: nat)
    requires d > 0
    ensures 0 / d == 0
  {
  }

  /** Two SOL, and the rent of a stake account of 200 bytes. */
  const TWO_SOL: nat := 2 * LAMPORTS_PER_SOL
  const STAKE_RENT: nat := 2_282_880

  /** Without a Bonus validator nothing is held back, and then the baseline targets may use up the pool
      and leave no rent for the increase that reaches them. The whole pool is in the reserve. */
  lemma RentMayNotFitWithoutBonus(v: ValidatorStake)
    requires v.stakeState == Baseline
    ensures var desired, list, targets := [v], map[v.voteAddress := 0], Targets(0, TWO_SOL, 0);
            && ComputeTargets(TWO_SOL, desired, list, TWO_SOL, STAKE_RENT) == Ok(targets)
            && !Fits(TWO_SOL, desired, {}, list, targets, STAKE_RENT, TWO_SOL)
  {
    var desired, list, e := [v], map[v.voteAddress := 0], Entry(0, v);
    assert desired[..0] == [];
    assert CountAt(desired, Baseline) == 1 && CountAt(desired, Bonus) == 0;
    assert Entries(desired, {}, list) == [e];
    IssuedForOne(desired, {}, list, e, Targets(0, TWO_SOL, 0), STAKE_RENT, TWO_SOL);
  }

  /** With a Bonus validator the same can happen, if the rent is more than there is to hold it back
      from. */
  lemma RentMayNotFitWithBonus(v: ValidatorStake, w: ValidatorStake)
    requires v.stakeState == Baseline && w.stakeState == Bonus && v.identity != w.identity
             && v.voteAddress != w.voteAddress
    ensures var desired, list := [v, w], map[v.voteAddress := 0, w.voteAddress := 0];
            var targets := Targets(0, TWO_SOL, 0);
            && ComputeTargets(TWO_SOL, desired, list, TWO_SOL, STAKE_RENT) == Ok(targets)
            && !Fits(TWO_SOL, desired, {w.identity}, list, targets, STAKE_RENT, TWO_SOL)
  {
    var desired, list, e := [v, w], map[v.voteAddress := 0, w.voteAddress := 0], Entry(0, v);
    TwoLevels(v, w);
    NothingToShare(TWO_SOL, desired, list, TWO_SOL, STAKE_RENT);
    assert [v, w][..1] == [v] && [v][..0] == [];
    assert Entries([v], {w.identity}, list) == [e];
    assert Entries([v, w], {w.identity}, list) == [e];
    IssuedForOne(desired, {w.identity}, list, e, Targets(0, TWO_SOL, 0), STAKE_RENT, TWO_SOL);
  }

  lemma TwoLevels(v: ValidatorStake, w: ValidatorStake)
    requires v.stakeState == Baseline && w.stakeState == Bonus
    ensures CountAt([v, w], Baseline) == 1 && CountAt([v, w], Bonus) == 1
  {
    assert [v, w][..1] == [v] && [v][..0] == [];
    assert CountAt([v], Baseline) == 1 && CountAt([v], Bonus) == 0;
  }

  lemma NothingToShare(total: nat, desired: seq<ValidatorStake>, list: ValidatorList, baseline: nat, rent: nat)
    requires TotalBonus(total, desired, baseline) == 0
    ensures BonusStakeAmount(total, desired, list, baseline, rent) == 0
  {
  }

  lemma IssuedForOne(
    desired: seq<ValidatorStake>, busy: set<Pubkey>, list: ValidatorList, e: Entry, targets: Targets, rent: nat,
    reserve: nat)
    requires Entries(desired, busy, list) == [e]
    requires Need(e, targets) > 0 && rent + MIN_STAKE_CHANGE_AMOUNT <= reserve
    ensures Issued(desired, busy, list, targets, rent, reserve) == 1
  {
    OneEntryQueue(e);
    OneWithinReach(e, targets, rent, reserve);
  }

  lemma OneEntryQueue(e: Entry)
    ensures Queue([e]) == [e]
  {
    QueueIsPermutation([e]);
    assert Queue([e])[0] in multiset(Queue([e]));
  }

  lemma OneWithinReach(e: Entry, targets: Targets, rent: nat, reserve: nat)
    requires Need(e, targets) > 0 && rent + MIN_STAKE_CHANGE_AMOUNT <= reserve
    ensures IncreasesIn(Orders([e], 1, targets, rent, reserve)) == 1
  {
    IncreasesAreWithinReach([e], 1, targets, rent, reserve);
    assert WithinReach([e], 0, targets, rent, reserve) == 0 && Demand([e], 0, targets, rent) == 0;
  }

  // ---------- The rebalancing ----------

  const MIN_STAKE_RESERVE_BALANCE: nat := 1

  datatype Rebalancing = Rebalancing(targets: Targets, orders: seq<Order>, unfunded: set<Pubkey>, remaining: nat)

  method CountLevels(desired: seq<ValidatorStake>) returns (none: nat, baseline: nat, bonus: nat)
    ensures none == CountAt(desired, NoStake) && baseline == CountAt(desired, Baseline)
            && bonus == CountAt(desired, Bonus)
    ensures none + baseline + bonus == |desired|
  {
    none, baseline, bonus := 0, 0, 0;
    for i := 0 to |desired|
      invariant none + baseline + bonus == i
      invariant none == CountAt(desired[..i], NoStake)
      invariant baseline == CountAt(desired[..i], Baseline)
      invariant bonus == CountAt(desired[..i], Bonus)
    {
      assert desired[..i + 1][..i] == desired[..i];
      match desired[i].stakeState {
        case NoStake => none := none + 1;
        case Baseline => baseline := baseline + 1;
        case Bonus => bonus := bonus + 1;
      }
    }
    assert desired[..|desired|] == desired;
  }

  method CollectEntries(
    desired: seq<ValidatorStake>, busy: set<Pubkey>, list: ValidatorList)
    returns (entries: seq<Entry>)
    ensures entries == Entries(desired, busy, list)
  {
    entries := [];
    for i := 0 to |desired|
      invariant entries == Entries(desired[..i], busy, list)
    {
      assert desired[..i + 1][..i] == desired[..i];
      if desired[i].identity !in busy && desired[i].voteAddress in list {
        entries := entries + [Entry(list[desired[i].voteAddress], desired[i])];
      }
    }
    assert desired[..|desired|] == desired;
  }

  /** What becomes of the validators: orders are for those that are not busy and in the pool, and each of
      them is decided on from its balance in the pool's list and the amount of its level. Whoever lacks
      enough to bother and is not given all of it leaves nothing for those behind it. */
  ghost predicate DecidedFromTheList(
    desired: seq<ValidatorStake>, busy: set<Pubkey>, list: ValidatorList, targets: Targets, orders: seq<Order>,
    unfunded: set<Pubkey>)
  {
    && (forall o :: o in orders ==> InThePool(o.validator, desired, busy, list))
    && (forall v :: InThePool(v, desired, busy, list) ==>
          && (v.stakeState == NoStake ==> DecidedOn(v, list[v.voteAddress], 0, orders, unfunded))
          && (v.stakeState == Baseline ==> DecidedOn(v, list[v.voteAddress], targets.baseline, orders, unfunded))
          && (v.stakeState == Bonus ==> DecidedOn(v, list[v.voteAddress], targets.bonus, orders, unfunded)))
    && (forall k :: k in unfunded ==> LacksEnough(k, desired, busy, list, targets))
    && (Distinct(desired) ==> OneEach(orders))
  }

  ghost predicate InThePool(v: ValidatorStake, desired: seq<ValidatorStake>, busy: set<Pubkey>, list: ValidatorList) {
    v in desired && v.identity !in busy && v.voteAddress in list
  }

  /** The identity is that of a validator that lacks enough to bother. */
  ghost predicate LacksEnough(
    k: Pubkey, desired: seq<ValidatorStake>, busy: set<Pubkey>, list: ValidatorList, targets: Targets)
  {
    exists v, level ::
      && InThePool(v, desired, busy, list) && v.identity == k
      && IsLevel(v.stakeState, targets, level) && list[v.voteAddress] + MIN_STAKE_CHANGE_AMOUNT <= level
  }

  /** Whoever lacks enough to bother and is not given all of it leaves nothing for those behind it. */
  ghost predicate ServedInOrder(
    desired: seq<ValidatorStake>, busy: set<Pubkey>, list: ValidatorList, targets: Targets, orders: seq<Order>)
  {
    forall v, w, level: nat, amount: nat ::
      && InThePool(v, desired, busy, list) && InThePool(w, desired, busy, list)
      && IsLevel(v.stakeState, targets, level) && list[v.voteAddress] + MIN_STAKE_CHANGE_AMOUNT <= level
      && Increase(v, level - list[v.voteAddress]) !in orders
      && Increase(w, amount) in orders ==>
        Precedes(Entry(list[w.voteAddress], w), Entry(list[v.voteAddress], v))
  }

  lemma QueueOfThePool(desired: seq<ValidatorStake>, busy: set<Pubkey>, list: ValidatorList, e: Entry)
    ensures e in Queue(Entries(desired, busy, list)) <==>
              InThePool(e.validator, desired, busy, list) && e.balance == list[e.validator.voteAddress]
  {
    QueueIsPermutation(Entries(desired, busy, list));
    SameElements(Queue(Entries(desired, busy, list)), Entries(desired, busy, list));
    SameElements(Entries(desired, busy, list), Queue(Entries(desired, busy, list)));
    EntriesAreOfThePool(desired, busy, list, e);
  }

  lemma DecisionsFromTheList(
    desired: seq<ValidatorStake>, busy: set<Pubkey>, list: ValidatorList, targets: Targets, rent: nat, reserve: nat,
    q: seq<Entry>)
    requires targets.none == 0
    requires forall e :: e in q <==>
                           InThePool(e.validator, desired, busy, list) && e.balance == list[e.validator.voteAddress]
    requires Distinct(desired) ==> DistinctEntries(q)
    ensures DecidedFromTheList(desired, busy, list, targets, Orders(q, |q|, targets, rent, reserve),
                               Unfunded(q, |q|, targets, rent, reserve))
  {
    forall o | o in Orders(q, |q|, targets, rent, reserve)
      ensures InThePool(o.validator, desired, busy, list)
    {
      OrderIffDecided(q, |q|, targets, rent, reserve, o);
      var i :| 0 <= i < |q| && OrdersOf(q[i].validator, OpFor(q, i, targets, rent, reserve)) == [o];
      assert q[i] in q;
    }
    forall v, level | InThePool(v, desired, busy, list) && IsLevel(v.stakeState, targets, level)
      ensures DecidedOn(v, list[v.voteAddress], level, Orders(q, |q|, targets, rent, reserve),
                        Unfunded(q, |q|, targets, rent, reserve))
    {
      var i :| 0 <= i < |q| && q[i] == Entry(list[v.voteAddress], v);
      OneIsDecidedOn(q, i, targets, rent, reserve, v, list[v.voteAddress], level);
    }
    forall k | k in Unfunded(q, |q|, targets, rent, reserve)
      ensures LacksEnough(k, desired, busy, list, targets)
    {
      UnfundedIffDecided(q, |q|, targets, rent, reserve, k);
      var i :| 0 <= i < |q| && q[i].validator.identity == k && OpFor(q, i, targets, rent, reserve) == ReserveDepleted;
      assert q[i] in q;
      var level := Desired(targets, q[i].validator.stakeState);
      DecisionsApproachTheLevels(q, i, targets, rent, reserve);
      assert InThePool(q[i].validator, desired, busy, list) && IsLevel(q[i].validator.stakeState, targets, level);
    }
    if Distinct(desired) {
      OneOrderEach(q, |q|, targets, rent, reserve);
    }
  }

  lemma OrderedFromTheList(
    desired: seq<ValidatorStake>, busy: set<Pubkey>, list: ValidatorList, targets: Targets, rent: nat, reserve: nat,
    q: seq<Entry>)
    requires InOrder(q)
    requires forall e :: e in q <==>
                           InThePool(e.validator, desired, busy, list) && e.balance == list[e.validator.voteAddress]
    ensures ServedInOrder(desired, busy, list, targets, Orders(q, |q|, targets, rent, reserve))
  {
    forall v, w, level: nat, amount: nat |
      && InThePool(v, desired, busy, list) && InThePool(w, desired, busy, list)
      && IsLevel(v.stakeState, targets, level) && list[v.voteAddress] + MIN_STAKE_CHANGE_AMOUNT <= level
      && Increase(v, level - list[v.voteAddress]) !in Orders(q, |q|, targets, rent, reserve)
      && !Precedes(Entry(list[w.voteAddress], w), Entry(list[v.voteAddress], v))
      ensures Increase(w, amount) !in Orders(q, |q|, targets, rent, reserve)
    {
      NobodyBehindIsGiven(q, targets, rent, reserve, Entry(list[v.voteAddress], v), Entry(list[w.voteAddress], w),
                          level, amount);
    }
  }

  /** The decisions on the queue of all entries. */
  lemma DecidedAsPromised(
    desired: seq<ValidatorStake>, busy: set<Pubkey>, list: ValidatorList, targets: Targets, rent: nat, reserve: nat)
    requires targets.none == 0
    ensures var q := Queue(Entries(desired, busy, list));
            var orders := Orders(q, |q|, targets, rent, reserve);
            && DecidedFromTheList(desired, busy, list, targets, orders, Unfunded(q, |q|, targets, rent, reserve))
            && ServedInOrder(desired, busy, list, targets, orders)
  {
    var entries := Entries(desired, busy, list);
    var q := Queue(entries);
    forall e: Entry
      ensures e in q <==> InThePool(e.validator, desired, busy, list) && e.balance == list[e.validator.voteAddress]
    {
      QueueOfThePool(desired, busy, list, e);
    }
    if Distinct(desired) {
      EntriesDistinct(desired, busy, list);
      QueueDistinct(entries);
    }
    QueueInOrder(entries);
    DecisionsFromTheList(desired, busy, list, targets, rent, reserve, q);
    OrderedFromTheList(desired, busy, list, targets, rent, reserve, q);
  }

  /** From the pool's size to the orders: it fails exactly when the baseline is not covered, draws no
      more than the reserve account can spare, and never issues more increases than rent was held
      back for. */
  method Rebalance(
    total: nat, desired: seq<ValidatorStake>, busy: set<Pubkey>, list: ValidatorList, baseline: nat, rent: nat,
    reserveBalance: nat)
    returns (r: Result<Rebalancing, Error>)
    ensures r.Err? <==> total < CountAt(desired, Baseline) * baseline
    ensures r.Ok? ==>
              && ComputeTargets(total, desired, list, baseline, rent) == Ok(r.value.targets)
              && var available := SaturatingSub(reserveBalance, MIN_STAKE_RESERVE_BALANCE + rent);
                 var q := Queue(Entries(desired, busy, list));
                 && r.value.orders == Orders(q, |q|, r.value.targets, rent, available)
                 && r.value.unfunded == Unfunded(q, |q|, r.value.targets, rent, available)
                 && r.value.remaining + Spent(q, |q|, r.value.targets, rent, available) == available
    ensures r.Ok? ==>
              && r.value.targets.baseline == baseline
              && DecidedFromTheList(desired, busy, list, r.value.targets, r.value.orders, r.value.unfunded)
              && ServedInOrder(desired, busy, list, r.value.targets, r.value.orders)
              && r.value.remaining + SumBy(r.value.orders, TakenBy(rent))
                 == SaturatingSub(reserveBalance, MIN_STAKE_RESERVE_BALANCE + rent)
    ensures r.Ok? && CountAt(desired, Bonus) > 0 ==>
              IncreasesIn(r.value.orders)
              <= NumberOfIncreases(desired, list, baseline, BonusEstimate(total, desired, baseline))
    ensures r.Ok? ==>
              var available := SaturatingSub(reserveBalance, MIN_STAKE_RESERVE_BALANCE + rent);
              var q := Queue(Entries(desired, busy, list));
              IncreasesIn(r.value.orders) == WithinReach(q, |q|, r.value.targets, rent, available)
    ensures r.Ok? && CountAt(desired, Baseline) * baseline + CountAt(desired, Bonus) * r.value.targets.bonus
                     + MostIncreases(desired, {}, list, r.value.targets) * rent <= total ==>
              CountAt(desired, Baseline) * baseline + CountAt(desired, Bonus) * r.value.targets.bonus
              + IncreasesIn(r.value.orders) * rent <= total
    ensures r.Ok? && CountAt(desired, Bonus) > 0 ==>
              var committed := CountAt(desired, Baseline) * baseline + CountAt(desired, Bonus) * r.value.targets.bonus;
              var held := RentForEstimate(total, desired, list, baseline, rent);
              if CountAt(desired, Baseline) * baseline + held <= total then
                && committed + IncreasesIn(r.value.orders) * rent <= total
                && total - CountAt(desired, Bonus) < committed + held <= total
              else r.value.targets.bonus == 0
    ensures r.Ok? && CountAt(desired, Bonus) == 0 ==> r.value.targets.bonus == 0
  {
    var none, baselines, bonuses := CountLevels(desired);
    if total < baselines * baseline {
      return Err(NotEnoughStakeToCoverBaseline);
    }
    var bonus := BonusStakeAmount(total, desired, list, baseline, rent);
    var available := SaturatingSub(reserveBalance, MIN_STAKE_RESERVE_BALANCE + rent);
    var entries := CollectEntries(desired, busy, list);
    var q, ops, orders, unfunded, remaining :=
      DistributeValidatorStake(entries, Targets(0, baseline, bonus), rent, available);
    r := Ok(Rebalancing(Targets(0, baseline, bonus), orders, unfunded, remaining));
    DecidedAsPromised(desired, busy, list, Targets(0, baseline, bonus), rent, available);
    FitsIff(total, desired, list, Targets(0, baseline, bonus), rent);
    IncreasesAreWithinReach(q, |q|, Targets(0, baseline, bonus), rent, available);
    var committed := CountAt(desired, Baseline) * baseline + CountAt(desired, Bonus) * bonus;
    assert Fits(total, desired, busy, list, Targets(0, baseline, bonus), rent, available)
      <==> committed + IncreasesIn(orders) * rent <= total;
    if bonuses > 0 {
      IncreasesWereReserved(total, desired, busy, list, baseline, rent, available);
      TargetsAndRentFit(total, desired, busy, list, baseline, rent, available);
    }
  }
}
