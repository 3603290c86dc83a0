/** Shares in a pool (calc.rs, liq_pool.rs): both conversions round down, and what that does to the
    value of a share over a run of deposits and withdrawals. */
module Shares {
  import opened Arithmetic
  import opened Collections

  const U64_LIMIT: nat := 0x1_0000_0000_0000_0000

  type u64 = n: nat | n < U64_LIMIT

  datatype Error = CalculationFailure | Overflow | InsufficientFunds | NumberTooLow | CapReached | InvalidAccountData

  /** `amount * numerator / denominator`; a denominator of zero leaves the amount as it is. */
  function Proportional(amount: u64, numerator: u64, denominator: u64): Result<u64, Error> {
    if denominator == 0 then Ok(amount)
    else
      var r := MulDiv(amount, numerator, denominator);
      if r < U64_LIMIT then Ok(r) else Err(CalculationFailure)
  }

  function ValueFromShares(shares: u64, totalValue: u64, totalShares: u64): Result<u64, Error> {
    Proportional(shares, totalValue, totalShares)
  }

  function SharesFromValue(value: u64, totalValue: u64, totalShares: u64): Result<u64, Error> {
    if totalShares == 0 then Ok(value) else Proportional(value, totalShares, totalValue)
  }

  /** The result is the exact quotient rounded down, and there is none only if it does not fit. */
  lemma ProportionalRoundsDown(amount: u64, numerator: u64, denominator: u64)
    requires denominator > 0
    ensures var r := Proportional(amount, numerator, denominator);
            && (r.Ok? ==> r.value * denominator <= amount * numerator < (r.value + 1) * denominator)
            && (r.Err? <==> amount * numerator >= U64_LIMIT * denominator)
  {
    var product := amount * numerator;
    DivideAndMultiply(product, denominator);
    QuotientAtLeast(product, denominator, U64_LIMIT);
    var q := product / denominator;
    assert denominator * q == q * denominator && (q + 1) * denominator == q * denominator + denominator;
  }

  /** A part of no more than the whole is no more than the amount, and always fits. */
  lemma ProportionalOfPart(amount: u64, numerator: u64, denominator: u64, bound: u64)
    requires denominator > 0 && amount * numerator <= bound * denominator
    ensures var r := Proportional(amount, numerator, denominator);
            r.Ok? && r.value <= bound && r.value * denominator <= amount * numerator
  {
    ProportionalRoundsDown(amount, numerator, denominator);
    QuotientAtLeast(amount * numerator, denominator, bound + 1);
    assert (bound + 1) * denominator == bound * denominator + denominator;
  }

  // ---------- Value to shares and back ----------

  /** The shares for a value are worth no more than it, and one share more would be worth more. The first
      shares are given out one for one. */
  lemma SharesForValue(value: u64, totalValue: u64, totalShares: u64)
    ensures var r := SharesFromValue(value, totalValue, totalShares);
            if totalShares == 0 || totalValue == 0 then r == Ok(value)
            else
              && (r.Err? <==> value * totalShares >= U64_LIMIT * totalValue)
              && (r.Ok? ==> r.value * totalValue <= value * totalShares < (r.value + 1) * totalValue)
  {
    if totalValue > 0 {
      ProportionalRoundsDown(value, totalShares, totalValue);
    }
  }

  /** What is paid for shares is no more than they are worth, by less than a lamport. */
  lemma ValueForShares(shares: u64, totalValue: u64, totalShares: u64)
    ensures var r := ValueFromShares(shares, totalValue, totalShares);
            if totalShares == 0 then r == Ok(shares)
            else
              && (r.Err? <==> shares * totalValue >= U64_LIMIT * totalShares)
              && (r.Ok? ==> r.value * totalShares <= shares * totalValue < (r.value + 1) * totalShares)
  {
    if totalShares > 0 {
      ProportionalRoundsDown(shares, totalValue, totalShares);
    }
  }

  /** Converting a value to shares and back never yields more than was put in, and loses less than one
      lamport and the value of one share. */
  lemma RoundTripGivesNoMore(value: u64, totalValue: u64, totalShares: u64)
    ensures var shares := SharesFromValue(value, totalValue, totalShares);
            shares.Ok? ==>
              var back := ValueFromShares(shares.value, totalValue, totalShares);
              && back.Ok? && back.value <= value
              && (totalShares > 0 && totalValue > 0 ==>
                    value * totalShares < (back.value + 1) * totalShares + totalValue)
  {
    var shares := SharesFromValue(value, totalValue, totalShares);
    if totalShares > 0 && shares.Ok? {
      SharesWorthAtMost(value, totalValue, totalShares);
      ProportionalOfPart(shares.value, totalValue, totalShares, value);
      SharesForValue(value, totalValue, totalShares);
      ValueForShares(shares.value, totalValue, totalShares);
      assert (shares.value + 1) * totalValue == shares.value * totalValue + totalValue;
    }
  }

  /** At the price before a deposit, the shares for it are worth no more than the deposit. */
  lemma SharesWorthAtMost(value: u64, totalValue: u64, totalShares: u64)
    requires totalShares > 0
    ensures var shares := SharesFromValue(value, totalValue, totalShares);
            shares.Ok? ==> shares.value * totalValue <= value * totalShares
  {
    SharesForValue(value, totalValue, totalShares);
    if totalValue == 0 {
      assert forall s: nat :: s * totalValue == 0;
    }
  }

  /** The number of shares that an amount buys of a pool that is worth `worth`: one share more would be
      worth more than is paid. */
  predicate FairMint(amount: nat, worth: nat, supply: nat, shares: nat) {
    if supply == 0 || worth == 0 then shares == amount
    else shares * worth <= amount * supply < (shares + 1) * worth
  }

  /** What is paid of a leg for some of the shares: one unit more would be more than their part. */
  predicate FairPayout(tokens: nat, leg: nat, supply: nat, out: nat) {
    if supply == 0 then out == tokens else out * supply <= tokens * leg < (out + 1) * supply
  }

  // ---------- A pool over a run ----------

  datatype Pool = Pool(value: u64, shares: u64)

  datatype Operation = Deposit(value: u64) | Withdraw(shares: u64)

  /** A failed operation leaves the pool as it was. */
  function Outcome(pool: Pool, op: Operation): Result<Pool, Error> {
    match op
    case Deposit(value) =>
      var minted := SharesFromValue(value, pool.value, pool.shares);
      if minted.Err? then Err(minted.error)
      else if pool.value + value >= U64_LIMIT || pool.shares + minted.value >= U64_LIMIT then Err(Overflow)
      else Ok(Pool(pool.value + value, pool.shares + minted.value))
    case Withdraw(shares) =>
      var paid := ValueFromShares(shares, pool.value, pool.shares);
      if paid.Err? then Err(paid.error)
      else if paid.value > pool.value then Err(InsufficientFunds)
      else Ok(Pool(pool.value - paid.value, SaturatingSub(pool.shares, shares)))
  }

  /** Deposits are added in full and shares are taken back in full, each for its fair counterpart; and
      shares that there are can always be withdrawn. */
  lemma OperationsAreFair(pool: Pool, op: Operation)
    ensures var r := Outcome(pool, op);
            match op
            case Deposit(value) =>
              r.Ok? ==>
                && r.value.value == pool.value + value && r.value.shares >= pool.shares
                && FairMint(value, pool.value, pool.shares, r.value.shares - pool.shares)
            case Withdraw(shares) =>
              && (r.Ok? ==>
                    && r.value.value <= pool.value && r.value.shares == SaturatingSub(pool.shares, shares)
                    && FairPayout(shares, pool.value, pool.shares, pool.value - r.value.value))
              && (0 < shares <= pool.shares ==> r.Ok?)
  {
    match op {
      case Deposit(value) => SharesForValue(value, pool.value, pool.shares);
      case Withdraw(shares) =>
        ValueForShares(shares, pool.value, pool.shares);
        if 0 < shares <= pool.shares {
          MulMonotone(shares, pool.shares, pool.value);
          ProportionalOfPart(shares, pool.value, pool.shares, pool.value);
        }
    }
  }

  function After(pool: Pool, op: Operation): Pool {
    var r := Outcome(pool, op);
    if r.Ok? then r.value else pool
  }

  function AfterAll(pool: Pool, ops: seq<Operation>): Pool
    decreases |ops|
  {
    if ops == [] then pool else AfterAll(After(pool, ops[0]), ops[1..])
  }

  /** A share of `b` is worth at least as much as a share of `a`. */
  predicate WorthAtLeast(b: Pool, a: Pool) {
    b.value * a.shares >= a.value * b.shares
  }

  lemma WorthTransitive(a: Pool, b: Pool, c: Pool)
    requires WorthAtLeast(b, a) && WorthAtLeast(c, b) && b.shares > 0
    ensures WorthAtLeast(c, a)
  {
    CrossMultiply(a.value, a.shares, b.value, b.shares, c.value, c.shares);
  }

  /** The order of fractions is transitive. */
  lemma CrossMultiply(av: nat, a: nat, bv: nat, b: nat, cv: nat, c: nat)
    requires b > 0 && bv * a >= av * b && cv * b >= bv * c
    ensures cv * a >= av * c
  {
    MulMonotone(av * b, bv * a, c);
    MulMonotone(bv * c, cv * b, a);
    Regroup(av, b, c);
    Regroup(cv, b, a);
    assert (bv * a) * c == (bv * c) * a;
    if av * c > cv * a {
      LargerProduct(b, cv * a, av * c);
    }
  }

  lemma Regroup(x: nat, y: nat, z: nat)
    ensures (x * y) * z == y * (x * z)
  {
  }

  lemma LargerProduct(f: nat, x: nat, y: nat)
    requires f > 0 && x < y
    ensures f * x < f * y
  {
    MulMonotone(x + 1, y, f);
    assert (x + 1) * f == f * x + f && y * f == f * y;
  }

  lemma DepositKeepsWorth(pool: Pool, value: u64)
    requires pool.shares > 0
    ensures WorthAtLeast(After(pool, Deposit(value)), pool)
  {
    var minted := SharesFromValue(value, pool.value, pool.shares);
    if minted.Ok? {
      SharesWorthAtMost(value, pool.value, pool.shares);
      assert (pool.value + value) * pool.shares == pool.value * pool.shares + value * pool.shares;
      assert pool.value * (pool.shares + minted.value) == pool.value * pool.shares + minted.value * pool.value;
    }
  }

  lemma WithdrawalKeepsWorth(pool: Pool, shares: u64)
    requires pool.shares > 0
    ensures WorthAtLeast(After(pool, Withdraw(shares)), pool)
  {
    var r := Outcome(pool, Withdraw(shares));
    if r.Ok? && shares < pool.shares {
      ProportionalRoundsDown(shares, pool.value, pool.shares);
      var paid := ValueFromShares(shares, pool.value, pool.shares).value;
      assert (pool.value - paid) * pool.shares == pool.value * pool.shares - paid * pool.shares;
      assert pool.value * (pool.shares - shares) == pool.value * pool.shares - shares * pool.value;
    } else if r.Ok? {
      assert pool.value * r.value.shares == 0;
    }
  }

  /** There are shares all along the run. */
  ghost predicate NeverEmptied(pool: Pool, ops: seq<Operation>)
    decreases |ops|
  {
    pool.shares > 0 && (ops == [] || NeverEmptied(After(pool, ops[0]), ops[1..]))
  }

  /** Over every run of deposits and withdrawals, the value per share never decreases. */
  lemma {:induction false} ValuePerShareNeverDecreases(pool: Pool, ops: seq<Operation>)
    requires NeverEmptied(pool, ops)
    ensures WorthAtLeast(AfterAll(pool, ops), pool)
    decreases |ops|
  {
    if ops != [] {
      var next := After(pool, ops[0]);
      match ops[0] {
        case Deposit(value) => DepositKeepsWorth(pool, value);
        case Withdraw(shares) => WithdrawalKeepsWorth(pool, shares);
      }
      ValuePerShareNeverDecreases(next, ops[1..]);
      WorthTransitive(pool, next, AfterAll(next, ops[1..]));
    }
  }

  lemma LittleIsLost(value: nat, worth: nat, supply: nat, minted: nat, paid: nat)
    requires FairMint(value, worth, supply, minted) && supply > 0 && worth > 0
    requires FairPayout(minted, worth + value, supply + minted, paid)
    ensures value * (supply + minted) < (paid + 1) * (supply + minted) + worth
  {
    var all := (paid + 1) * (supply + minted);
    assert (minted + 1) * worth == minted * worth + worth;
    assert minted * (worth + value) == minted * worth + minted * value;
    assert value * (supply + minted) == value * supply + value * minted;
    assert value * minted == minted * value;
  }

  lemma NoGain(pool: Pool, value: u64, minted: u64)
    requires pool.shares > 0 && SharesFromValue(value, pool.value, pool.shares) == Ok(minted)
    requires pool.value + value < U64_LIMIT && pool.shares + minted < U64_LIMIT
    ensures var paid := ValueFromShares(minted, pool.value + value, pool.shares + minted);
            paid.Ok? && paid.value <= value
  {
    SharesWorthAtMost(value, pool.value, pool.shares);
    assert minted * (pool.value + value) == minted * pool.value + minted * value;
    assert value * (pool.shares + minted) == value * pool.shares + value * minted;
    ProportionalOfPart(minted, pool.value + value, pool.shares + minted, value);
  }

  lemma WithdrawnAtOnce(pool: Pool, value: u64, minted: u64)
    requires pool.shares > 0 && SharesFromValue(value, pool.value, pool.shares) == Ok(minted)
    requires pool.value + value < U64_LIMIT && pool.shares + minted < U64_LIMIT
    ensures var paid := ValueFromShares(minted, pool.value + value, pool.shares + minted);
            paid.Ok? && pool.value > 0 ==>
              value * (pool.shares + minted) < (paid.value + 1) * (pool.shares + minted) + pool.value
  {
    var paid := ValueFromShares(minted, pool.value + value, pool.shares + minted);
    SharesForValue(value, pool.value, pool.shares);
    ValueForShares(minted, pool.value + value, pool.shares + minted);
    if paid.Ok? && pool.value > 0 {
      LittleIsLost(value, pool.value, pool.shares, minted, paid.value);
    }
  }

  /** Who deposits and withdraws the shares at once has no gain, unless the pool held value that
      nobody had shares in: then all of it goes to the depositor. Otherwise less than one lamport and
      the value of a share is lost. */
  lemma DepositAndWithdraw(pool: Pool, value: u64)
    requires Outcome(pool, Deposit(value)).Ok?
    ensures var next := Outcome(pool, Deposit(value)).value;
            var paid := ValueFromShares(next.shares - pool.shares, next.value, next.shares);
            && paid.Ok?
            && (paid.value <= value <==> pool.shares > 0 || pool.value == 0 || value == 0)
            && (pool.shares == 0 && value > 0 ==> paid.value == next.value)
            && (pool.shares > 0 && pool.value > 0 ==>
                  value * next.shares < (paid.value + 1) * next.shares + pool.value)
  {
    var next := Outcome(pool, Deposit(value)).value;
    var minted: u64 := next.shares - pool.shares;
    if pool.shares > 0 {
      NoGain(pool, value, minted);
      WithdrawnAtOnce(pool, value, minted);
    } else if value > 0 {
      QuotientOfProduct(next.value, value);
      assert minted * next.value == next.value * value;
    }
  }

  lemma QuotientOfProduct(a: nat, d: nat)
    requires d > 0
    ensures a * d / d == a
  {
    QuotientAtLeast(a * d, d, a);
    QuotientAtLeast(a * d, d, a + 1);
    assert (a + 1) * d == a * d + d;
  }

  // ---------- The liquidity pool ----------

  /** The two legs of the pool, its virtual supply of shares, and the real supply, which holders can
      lower by burning. */
  datatype Legs = Legs(sol: u64, msol: u64, supply: u64, minted: u64)

  /** What the pool reads of the rest of the state: the price of mSOL as a fraction, and the limits. */
  datatype Market = Market(
    totalValue: u64, totalShares: u64, minDeposit: u64, minWithdraw: u64, solCap: u64, rentExempt: u64)

  /** The value of both legs in lamports. */
  function TotalLegs(legs: Legs, m: Market): Result<u64, Error> {
    var msolValue := ValueFromShares(legs.msol, m.totalValue, m.totalShares);
    if msolValue.Err? then Err(msolValue.error)
    else if legs.sol + msolValue.value >= U64_LIMIT then Err(Overflow)
    else Ok(legs.sol + msolValue.value)
  }

  /** The virtual supply aligned with the real one. */
  function Aligned(legs: Legs): Legs {
    if legs.minted > legs.supply then legs else legs.(supply := legs.minted)
  }

  function AfterAdd(legs: Legs, m: Market, lamports: u64): Result<Legs, Error> {
    if lamports < m.minDeposit then Err(NumberTooLow)
    else if legs.sol + m.rentExempt + lamports >= U64_LIMIT then Err(Overflow)
    else if legs.sol + m.rentExempt + lamports > m.solCap then Err(CapReached)
    else if legs.minted > legs.supply then Err(InvalidAccountData)
    else
      var total := TotalLegs(legs, m);
      if total.Err? then Err(total.error)
      else
        var shares := SharesFromValue(lamports, total.value, legs.minted);
        if shares.Err? then Err(shares.error)
        else if legs.minted + shares.value >= U64_LIMIT then Err(Overflow)
        else Ok(Legs(legs.sol + lamports, legs.msol, legs.minted + shares.value, legs.minted + shares.value))
  }

  function AfterRemove(legs: Legs, m: Market, tokens: u64): Result<Legs, Error> {
    if tokens > legs.minted then Err(InsufficientFunds)
    else
      var supply := Aligned(legs).supply;
      var solOut := Proportional(tokens, legs.sol, supply);
      var msolOut := Proportional(tokens, legs.msol, supply);
      if solOut.Err? || msolOut.Err? then Err(CalculationFailure)
      else
        var out := TotalLegs(Legs(solOut.value, msolOut.value, 0, 0), m);
        if out.Err? then Err(out.error)
        else if out.value < m.minWithdraw then Err(NumberTooLow)
        else if solOut.value > legs.sol || msolOut.value > legs.msol then Err(InsufficientFunds)
        else Ok(Legs(
          legs.sol - solOut.value, legs.msol - msolOut.value, SaturatingSub(supply, tokens), legs.minted - tokens))
  }

  /** The value of both legs, mSOL at its price rounded down; nothing overflows here. */
  function Worth(legs: Legs, m: Market): nat {
    legs.sol + MsolWorth(legs.msol, m)
  }

  function MsolWorth(msol: nat, m: Market): nat {
    if m.totalShares == 0 then msol else MulDiv(msol, m.totalValue, m.totalShares)
  }

  lemma WorthIsTotal(legs: Legs, m: Market)
    ensures TotalLegs(legs, m).Ok? <==> Worth(legs, m) < U64_LIMIT
    ensures TotalLegs(legs, m).Ok? ==> TotalLegs(legs, m).value == Worth(legs, m)
  {
  }

  /** An addition succeeds exactly within the limits, into a pool for which nobody else has minted shares. */
  lemma AdditionSucceedsIff(legs: Legs, m: Market, lamports: u64, shares: nat)
    requires FairMint(lamports, Worth(legs, m), legs.minted, shares)
    ensures var r := AfterAdd(legs, m, lamports);
            && (r.Ok? <==>
                  && m.minDeposit <= lamports && legs.sol + m.rentExempt + lamports <= m.solCap
                  && legs.minted <= legs.supply
                  && Worth(legs, m) < U64_LIMIT && legs.minted + shares < U64_LIMIT)
            && (r.Ok? ==>
                  r.value == Legs(legs.sol + lamports, legs.msol, legs.minted + shares, legs.minted + shares))
  {
    WorthIsTotal(legs, m);
    if Worth(legs, m) < U64_LIMIT {
      MintIsFair(lamports, Worth(legs, m), legs.minted, shares);
    }
  }

  lemma MintIsFair(amount: u64, worth: u64, supply: u64, shares: nat)
    requires FairMint(amount, worth, supply, shares)
    ensures SharesFromValue(amount, worth, supply)
            == if shares < U64_LIMIT then Ok(shares) else Err(CalculationFailure)
  {
    SharesForValue(amount, worth, supply);
    if supply > 0 && worth > 0 {
      QuotientIs(amount * supply, worth, shares);
    }
  }

  lemma PayoutIsFair(tokens: u64, leg: u64, supply: u64, out: nat)
    requires FairPayout(tokens, leg, supply, out)
    ensures Proportional(tokens, leg, supply) == if out < U64_LIMIT then Ok(out) else Err(CalculationFailure)
  {
    if supply > 0 {
      QuotientIs(tokens * leg, supply, out);
    }
  }

  lemma QuotientIs(product: nat, d: nat, q: nat)
    requires d > 0 && q * d <= product < (q + 1) * d
    ensures product / d == q
  {
    QuotientAtLeast(product, d, q);
    QuotientAtLeast(product, d, q + 1);
  }

  lemma PayoutsRoundDown(tokens: u64, sol: u64, msol: u64, supply: u64)
    ensures var r := Proportional(tokens, sol, supply); r.Ok? ==> FairPayout(tokens, sol, supply, r.value)
    ensures var r := Proportional(tokens, msol, supply); r.Ok? ==> FairPayout(tokens, msol, supply, r.value)
  {
    ValueForShares(tokens, sol, supply);
    ValueForShares(tokens, msol, supply);
  }

  /** A removal succeeds exactly if there are that many shares, both legs hold what is paid, and that is
      worth the smallest withdrawal. */
  lemma RemovalSucceedsIff(legs: Legs, m: Market, tokens: u64, sol: nat, msol: nat)
    requires FairPayout(tokens, legs.sol, Min(legs.minted, legs.supply), sol)
    requires FairPayout(tokens, legs.msol, Min(legs.minted, legs.supply), msol)
    ensures var r := AfterRemove(legs, m, tokens);
            && (r.Ok? <==>
                  && tokens <= legs.minted && sol <= legs.sol && msol <= legs.msol
                  && m.minWithdraw <= sol + MsolWorth(msol, m) < U64_LIMIT)
            && (r.Ok? ==>
                  r.value == Legs(legs.sol - sol, legs.msol - msol,
                                  SaturatingSub(Min(legs.minted, legs.supply), tokens), legs.minted - tokens))
  {
    PayoutIsFair(tokens, legs.sol, Min(legs.minted, legs.supply), sol);
    PayoutIsFair(tokens, legs.msol, Min(legs.minted, legs.supply), msol);
    if sol < U64_LIMIT && msol < U64_LIMIT {
      WorthIsTotal(Legs(sol, msol, 0, 0), m);
    }
  }

  class LiqPool {
    var solLeg: u64
    var msolLeg: u64
    var lpSupply: u64
    var lpMintSupply: u64

    constructor ()
      ensures State() == Legs(0, 0, 0, 0)
    {
      solLeg, msolLeg, lpSupply, lpMintSupply := 0, 0, 0, 0;
    }

    function State(): Legs
      reads this
    {
      Legs(solLeg, msolLeg, lpSupply, lpMintSupply)
    }

    method OnLpMint(amount: u64) returns (ok: bool)
      modifies this`lpSupply
      ensures ok == (old(lpSupply) + amount < U64_LIMIT)
      ensures lpSupply == if ok then old(lpSupply) + amount else old(lpSupply)
    {
      ok := lpSupply + amount < U64_LIMIT;
      if ok {
        lpSupply := lpSupply + amount;
      }
    }

    method OnLpBurn(amount: u64)
      modifies this`lpSupply
      ensures lpSupply == SaturatingSub(old(lpSupply), amount)
    {
      lpSupply := SaturatingSub(lpSupply, amount);
    }

    method CheckLiquidityCap(lamports: u64, m: Market) returns (error: Option<Error>)
      ensures error == if solLeg + m.rentExempt + lamports >= U64_LIMIT then Some(Overflow)
                       else if solLeg + m.rentExempt + lamports > m.solCap then Some(CapReached) else None
    {
      var balance := solLeg + m.rentExempt + lamports;
      error := if balance >= U64_LIMIT then Some(Overflow) else if balance > m.solCap then Some(CapReached) else None;
    }

    /** The shares are computed before the deposit is added. On an error the transaction is undone. */
    method AddLiquidity(lamports: u64, m: Market) returns (r: Result<u64, Error>)
      modifies this
      ensures match AfterAdd(old(State()), m, lamports)
              case Ok(legs) => State() == legs && r == Ok(lpMintSupply - old(lpMintSupply))
              case Err(e) => State() == old(State()) && r == Err(e)
      ensures r.Ok? ==>
                && FairMint(lamports, Worth(old(State()), m), old(lpMintSupply), r.value)
                && State() == Legs(old(solLeg) + lamports, old(msolLeg), lpMintSupply, old(lpMintSupply) + r.value)
    {
      if lamports < m.minDeposit {
        return Err(NumberTooLow);
      }
      var error := CheckLiquidityCap(lamports, m);
      if error.Some? {
        return Err(error.value);
      }
      if lpMintSupply > lpSupply {
        return Err(InvalidAccountData);
      }
      var total := TotalLegs(State(), m);
      if total.Err? {
        return total;
      }
      r := SharesFromValue(lamports, total.value, lpMintSupply);
      WorthIsTotal(State(), m);
      SharesForValue(lamports, total.value, lpMintSupply);
      if r.Err? {
        return;
      }
      if lpMintSupply + r.value >= U64_LIMIT {
        return Err(Overflow);
      }
      lpSupply := lpMintSupply;
      solLeg := solLeg + lamports;
      lpMintSupply := lpMintSupply + r.value;
      var ok := OnLpMint(r.value);
    }

    /** Each leg is paid in proportion, rounded down on its own. */
    method RemoveLiquidity(tokens: u64, m: Market) returns (r: Result<(u64, u64), Error>)
      modifies this
      ensures match AfterRemove(old(State()), m, tokens)
              case Ok(legs) => State() == legs && r == Ok((old(solLeg) - solLeg, old(msolLeg) - msolLeg))
              case Err(e) => State() == old(State()) && r == Err(e)
      ensures r.Ok? ==>
                && FairPayout(tokens, old(solLeg), Min(old(lpMintSupply), old(lpSupply)), r.value.0)
                && FairPayout(tokens, old(msolLeg), Min(old(lpMintSupply), old(lpSupply)), r.value.1)
                && solLeg == old(solLeg) - r.value.0 && msolLeg == old(msolLeg) - r.value.1
                && lpMintSupply == old(lpMintSupply) - tokens
                && lpSupply == SaturatingSub(Min(old(lpMintSupply), old(lpSupply)), tokens)
    {
      if tokens > lpMintSupply {
        return Err(InsufficientFunds);
      }
      var supply := if lpMintSupply > lpSupply then lpSupply else lpMintSupply;
      PayoutsRoundDown(tokens, solLeg, msolLeg, supply);
      var solOut := Proportional(tokens, solLeg, supply);
      if solOut.Err? {
        return Err(CalculationFailure);
      }
      var msolOut := Proportional(tokens, msolLeg, supply);
      if msolOut.Err? {
        return Err(CalculationFailure);
      }
      var out := TotalLegs(Legs(solOut.value, msolOut.value, 0, 0), m);
      if out.Err? {
        return Err(out.error);
      }
      if out.value < m.minWithdraw {
        return Err(NumberTooLow);
      }
      if solOut.value > solLeg || msolOut.value > msolLeg {
        return Err(InsufficientFunds);
      }
      lpSupply := supply;
      solLeg, msolLeg, lpMintSupply := solLeg - solOut.value, msolLeg - msolOut.value, lpMintSupply - tokens;
      OnLpBurn(tokens);
      r := Ok((solOut.value, msolOut.value));
    }

    /** A holder burns shares without the pool's knowledge. */
    method BurnDirectly(tokens: u64)
      requires tokens <= lpMintSupply
      modifies this`lpMintSupply
      ensures State() == old(State()).(minted := old(lpMintSupply) - tokens)
    {
      lpMintSupply := lpMintSupply - tokens;
    }
  }

  datatype PoolOperation = Add(lamports: u64) | Remove(tokens: u64) | Burn(tokens: u64)

  /** A failed operation leaves the pool as it was. The price can be another one for every operation. */
  function AfterOperation(legs: Legs, m: Market, op: PoolOperation): Legs {
    match op
    case Add(lamports) => (match AfterAdd(legs, m, lamports) case Ok(next) => next case Err(_) => legs)
    case Remove(tokens) => (match AfterRemove(legs, m, tokens) case Ok(next) => next case Err(_) => legs)
    case Burn(tokens) => if tokens <= legs.minted then legs.(minted := legs.minted - tokens) else legs
  }

  function AfterOperations(legs: Legs, ops: seq<(Market, PoolOperation)>): Legs
    decreases |ops|
  {
    if ops == [] then legs else AfterOperations(AfterOperation(legs, ops[0].0, ops[0].1), ops[1..])
  }

  /** There are never more shares than the pool has given out. */
  lemma {:induction false} NobodyElseMints(legs: Legs, ops: seq<(Market, PoolOperation)>)
    requires legs.minted <= legs.supply
    ensures AfterOperations(legs, ops).minted <= AfterOperations(legs, ops).supply
    decreases |ops|
  {
    if ops != [] {
      NobodyElseMints(AfterOperation(legs, ops[0].0, ops[0].1), ops[1..]);
    }
  }

  function SolPool(legs: Legs): Pool {
    Pool(legs.sol, legs.minted)
  }

  function MsolPool(legs: Legs): Pool {
    Pool(legs.msol, legs.minted)
  }

  ghost predicate NoAdditions(ops: seq<(Market, PoolOperation)>) {
    forall i :: 0 <= i < |ops| ==> !ops[i].1.Add?
  }

  lemma RemovalKeepsEachLeg(legs: Legs, m: Market, tokens: u64)
    requires 0 < legs.minted <= legs.supply
    ensures WorthAtLeast(SolPool(AfterOperation(legs, m, Remove(tokens))), SolPool(legs))
    ensures WorthAtLeast(MsolPool(AfterOperation(legs, m, Remove(tokens))), MsolPool(legs))
  {
    WithdrawalKeepsWorth(SolPool(legs), tokens);
    WithdrawalKeepsWorth(MsolPool(legs), tokens);
  }

  lemma BurningKeepsWorth(legs: Legs, tokens: u64)
    requires tokens <= legs.minted
    ensures WorthAtLeast(SolPool(legs.(minted := legs.minted - tokens)), SolPool(legs))
    ensures WorthAtLeast(MsolPool(legs.(minted := legs.minted - tokens)), MsolPool(legs))
  {
    MulMonotone(legs.minted - tokens, legs.minted, legs.sol);
    MulMonotone(legs.minted - tokens, legs.minted, legs.msol);
  }

  lemma {:induction false} NoSharesLeft(legs: Legs, ops: seq<(Market, PoolOperation)>)
    requires legs.minted == 0 && NoAdditions(ops)
    ensures AfterOperations(legs, ops).minted == 0
    decreases |ops|
  {
    if ops != [] {
      NoSharesLeft(AfterOperation(legs, ops[0].0, ops[0].1), ops[1..]);
    }
  }

  lemma OperationKeepsEachLeg(legs: Legs, m: Market, op: PoolOperation)
    requires 0 < legs.minted <= legs.supply && !op.Add?
    ensures WorthAtLeast(SolPool(AfterOperation(legs, m, op)), SolPool(legs))
    ensures WorthAtLeast(MsolPool(AfterOperation(legs, m, op)), MsolPool(legs))
    ensures AfterOperation(legs, m, op).minted <= AfterOperation(legs, m, op).supply
  {
    match op {
      case Remove(tokens) => RemovalKeepsEachLeg(legs, m, tokens);
      case Burn(tokens) =>
        if tokens <= legs.minted {
          BurningKeepsWorth(legs, tokens);
        }
    }
  }

  /** Over every run of removals and burns, at whatever prices, the lamports and the mSOL per share never
      decrease, each on its own, while there are shares. */
  lemma {:induction false} LegsPerShareNeverDecrease(legs: Legs, ops: seq<(Market, PoolOperation)>)
    requires 0 < legs.minted <= legs.supply && NoAdditions(ops)
    ensures WorthAtLeast(SolPool(AfterOperations(legs, ops)), SolPool(legs))
    ensures WorthAtLeast(MsolPool(AfterOperations(legs, ops)), MsolPool(legs))
    decreases |ops|
  {
    if ops != [] {
      var next := AfterOperation(legs, ops[0].0, ops[0].1);
      OperationKeepsEachLeg(legs, ops[0].0, ops[0].1);
      if next.minted > 0 {
        LegsPerShareNeverDecrease(next, ops[1..]);
        WorthTransitive(SolPool(legs), SolPool(next), SolPool(AfterOperations(next, ops[1..])));
        WorthTransitive(MsolPool(legs), MsolPool(next), MsolPool(AfterOperations(next, ops[1..])));
      } else {
        NoSharesLeft(next, ops[1..]);
      }
    }
  }

  /** An addition never lowers the value of a share, counting mSOL at its price rounded down. */
  lemma AdditionKeepsWorth(legs: Legs, m: Market, lamports: u64)
    requires legs.minted > 0 && AfterAdd(legs, m, lamports).Ok?
    ensures var next := AfterAdd(legs, m, lamports).value;
            TotalLegs(legs, m).Ok?
            && (TotalLegs(legs, m).value + lamports) * legs.minted >= TotalLegs(legs, m).value * next.minted
  {
    var total := TotalLegs(legs, m).value;
    var minted := SharesFromValue(lamports, total, legs.minted).value;
    SharesWorthAtMost(lamports, total, legs.minted);
    assert (total + lamports) * legs.minted == total * legs.minted + lamports * legs.minted;
    assert total * (legs.minted + minted) == total * legs.minted + minted * total;
  }

  // ---------- Additions and removals at a constant price ----------

  /** Rounding the price down loses no more than one lamport: if there is at least as much mSOL per share,
      its value and one lamport more are worth at least as much per share. */
  lemma FloorLosesLittle(msol: nat, msol': nat, shares: nat, shares': nat, value: nat, total: nat)
    requires total > 0 && msol' * shares >= msol * shares'
    ensures (MulDiv(msol', value, total) + 1) * shares >= MulDiv(msol, value, total) * shares'
  {
    var v, v' := MulDiv(msol, value, total), MulDiv(msol', value, total);
    DivideAndMultiply(msol * value, total);
    DivideAndMultiply(msol' * value, total);
    assert v * total <= msol * value && msol' * value <= (v' + 1) * total by {
      assert total * v == v * total && (v' + 1) * total == total * v' + total;
    }
    MulMonotone(v * total, msol * value, shares');
    MulMonotone(msol * shares', msol' * shares, value);
    MulMonotone(msol' * value, (v' + 1) * total, shares);
    Regroup(msol, value, shares');
    Regroup(msol', value, shares);
    Regroup(v, total, shares');
    Regroup(v' + 1, total, shares);
    assert total * (v * shares') <= total * ((v' + 1) * shares) by {
      assert (msol * shares') * value == value * (msol * shares');
      assert (msol' * shares) * value == value * (msol' * shares);
    }
    if v * shares' > (v' + 1) * shares {
      LargerProduct(total, (v' + 1) * shares, v * shares');
    }
  }

  /** No operation lowers what a share is worth by more than one lamport of the pool: an addition and a
      burn do not lower it at all, a removal only through the price rounded down. */
  lemma OperationLowersLittle(legs: Legs, m: Market, op: PoolOperation)
    requires 0 < legs.minted <= legs.supply
    ensures var next := AfterOperation(legs, m, op);
            && (Worth(next, m) + 1) * legs.minted >= Worth(legs, m) * next.minted
            && (!op.Remove? ==> Worth(next, m) * legs.minted >= Worth(legs, m) * next.minted)
  {
    var next := AfterOperation(legs, m, op);
    var w := Worth(legs, m);
    match op {
      case Add(lamports) =>
        if AfterAdd(legs, m, lamports).Ok? {
          AdditionKeepsWorth(legs, m, lamports);
          WorthIsTotal(legs, m);
          assert Worth(next, m) == w + lamports;
        }
        MulMonotone(Worth(next, m), Worth(next, m) + 1, legs.minted);
      case Remove(tokens) => RemovalLowersLittle(legs, m, tokens);
      case Burn(tokens) =>
        assert Worth(next, m) == w && next.minted <= legs.minted;
        MulMonotone(next.minted, legs.minted, w);
        assert w * legs.minted >= w * next.minted && (w + 1) * legs.minted == w * legs.minted + legs.minted;
    }
  }

  lemma MsolLosesLittle(msol: nat, msol': nat, shares: nat, shares': nat, m: Market)
    requires msol' * shares >= msol * shares'
    ensures (MsolWorth(msol', m) + 1) * shares >= MsolWorth(msol, m) * shares'
  {
    if m.totalShares > 0 {
      FloorLosesLittle(msol, msol', shares, shares', m.totalValue, m.totalShares);
    } else {
      assert (msol' + 1) * shares == msol' * shares + shares;
    }
  }

  lemma BothLegs(sol: nat, sol': nat, v: nat, v': nat, shares: nat, shares': nat)
    requires sol' * shares >= sol * shares' && (v' + 1) * shares >= v * shares'
    ensures (sol' + v' + 1) * shares >= (sol + v) * shares'
  {
    assert (sol' + v' + 1) * shares == sol' * shares + (v' + 1) * shares;
    assert (sol + v) * shares' == sol * shares' + v * shares';
  }

  lemma RemovalLowersLittle(legs: Legs, m: Market, tokens: u64)
    requires 0 < legs.minted <= legs.supply
    ensures var next := AfterOperation(legs, m, Remove(tokens));
            (Worth(next, m) + 1) * legs.minted >= Worth(legs, m) * next.minted
  {
    RemovalKeepsEachLeg(legs, m, tokens);
    LegsLoseLittle(legs, AfterOperation(legs, m, Remove(tokens)), m);
  }

  lemma LegsLoseLittle(legs: Legs, next: Legs, m: Market)
    requires WorthAtLeast(SolPool(next), SolPool(legs)) && WorthAtLeast(MsolPool(next), MsolPool(legs))
    ensures (Worth(next, m) + 1) * legs.minted >= Worth(legs, m) * next.minted
  {
    MsolLosesLittle(legs.msol, next.msol, legs.minted, next.minted, m);
    BothLegs(legs.sol, next.sol, MsolWorth(legs.msol, m), MsolWorth(next.msol, m), legs.minted, next.minted);
  }

  /** There are shares all along the run. */
  ghost predicate SharesRemain(legs: Legs, m: Market, ops: seq<PoolOperation>)
    decreases |ops|
  {
    0 < legs.minted <= legs.supply && (ops == [] || SharesRemain(AfterOperation(legs, m, ops[0]), m, ops[1..]))
  }

  function AtConstantPrice(legs: Legs, m: Market, ops: seq<PoolOperation>): Legs
    decreases |ops|
  {
    if ops == [] then legs else AtConstantPrice(AfterOperation(legs, m, ops[0]), m, ops[1..])
  }

  function PerShare(legs: Legs, m: Market): real
    requires legs.minted > 0
  {
    Worth(legs, m) as real / legs.minted as real
  }

  /** One lamport of the pool, per share, for every removal of the run. */
  ghost function Roundings(legs: Legs, m: Market, ops: seq<PoolOperation>): real
    requires SharesRemain(legs, m, ops)
    decreases |ops|
  {
    if ops == [] then 0.0
    else
      var next := AfterOperation(legs, m, ops[0]);
      assert SharesRemain(next, m, ops[1..]);
      (if ops[0].Remove? then 1.0 / next.minted as real else 0.0) + Roundings(next, m, ops[1..])
  }

  lemma Cancel(c: real, d: real, z: real)
    requires z > 0.0 && c * z <= d * z
    ensures c <= d
  {
  }

  lemma Expand(a: real, x: real, y: real)
    requires x > 0.0 && y > 0.0
    ensures (a / x) * (x * y) == a * y
  {
    var q := a / x;
    assert q * x == a;
    assert q * (x * y) == (q * x) * y;
  }

  lemma CompareFractions(a: real, b: real, x: real, y: real)
    requires x > 0.0 && y > 0.0 && b * x >= a * y
    ensures a / x <= b / y
  {
    Expand(a, x, y);
    Expand(b, y, x);
    assert y * x == x * y;
    Cancel(a / x, b / y, x * y);
  }

  lemma FractionsCompare(w: nat, w': nat, s: nat, s': nat, slack: nat)
    requires s > 0 && s' > 0 && (w' + slack) * s >= w * s'
    ensures w' as real / s' as real >= w as real / s as real - slack as real / s' as real
  {
    var more: nat := w' + slack;
    assert (more * s) as real == more as real * s as real && (w * s') as real == w as real * s' as real;
    CompareFractions(w as real, more as real, s as real, s' as real);
    assert more as real / s' as real == w' as real / s' as real + slack as real / s' as real;
  }

  /** Over every run of additions, removals and burns at a constant price, a share loses no more than one
      lamport of the pool for each removal. */
  lemma {:induction false} WorthFallsOnlyByRounding(legs: Legs, m: Market, ops: seq<PoolOperation>)
    requires SharesRemain(legs, m, ops)
    ensures var last := AtConstantPrice(legs, m, ops);
            last.minted > 0 && PerShare(last, m) >= PerShare(legs, m) - Roundings(legs, m, ops)
    decreases |ops|
  {
    if ops != [] {
      var next := AfterOperation(legs, m, ops[0]);
      OperationLowersLittle(legs, m, ops[0]);
      FractionsCompare(
        Worth(legs, m), Worth(next, m), legs.minted, next.minted, if ops[0].Remove? then 1 else 0);
      WorthFallsOnlyByRounding(next, m, ops[1..]);
    }
  }

  /** A removal can lower what a share is worth: of four shares for four mSOL at half a lamport each, one
      is taken out with one mSOL, and the other three are worth one lamport instead of one and a half. */
  lemma RemovalCanLowerWorth()
    ensures var legs, m := Legs(0, 4, 4, 4), Market(1, 2, 0, 0, 0, 0);
            var next := AfterOperation(legs, m, Remove(1));
            next == Legs(0, 3, 3, 3) && Worth(legs, m) == 2 && Worth(next, m) == 1
            && Worth(next, m) * legs.minted < Worth(legs, m) * next.minted
  {
    assert MulDiv(1, 4, 4) == 1 && MulDiv(1, 0, 4) == 0 && MulDiv(1, 1, 2) == 0;
  }
}
