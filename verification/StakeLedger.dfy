/** The stake accounts of one authorized staker, and the effect on them of the stake program
    transactions that the v0 pool sends. */
module StakeLedger {
  import opened Arithmetic
  import opened Collections
  import opened StakeTypes

  datatype Activation = Activating | Active | Deactivating | Inactive

  /** Stake addresses are derived from the vote address with a seed that starts with `S` or `T`;
      the derivation is taken to be injective. */
  datatype Address =
    | Reserve
    | StakeOf(vote: Pubkey)
    | TransientOf(vote: Pubkey)
    | Other(id: nat)

  /** `credits` is the credits-observed counter of a delegated account. */
  datatype Account = Account(lamports: nat, activation: Activation, credits: Option<nat>)

  type Ledger = map<Address, Account>

  datatype Transaction =
    | Deactivate(account: Address)
    | Delegate(account: Address)
    | Merge(destination: Address, source: Address)
    | SplitAndDelegate(source: Address, amount: nat, target: Address)
    | SplitAndDeactivate(source: Address, amount: nat, target: Address)

  // ---------- Effect of a transaction ----------

  /** When the stake program takes the transaction. */
  predicate Accepts(l: Ledger, tx: Transaction) {
    match tx
    case Deactivate(a) => a in l && l[a].activation.Active?
    case Delegate(a) => a in l && l[a].activation.Inactive?
    case Merge(d, s) =>
      && d != s && d in l && s in l
      && (|| (l[d].activation.Inactive? && l[s].activation.Inactive?)
          || (l[d].activation.Active? && l[s].activation.Active? && l[d].credits == l[s].credits))
    case SplitAndDelegate(s, amount, target) =>
      s in l && l[s].activation.Inactive? && target !in l && 0 < amount <= l[s].lamports
    case SplitAndDeactivate(s, amount, target) =>
      s in l && l[s].activation.Active? && target !in l && 0 < amount <= l[s].lamports
  }

  /** Takes `amount` out of an account; an account split in full is closed. */
  function Withdraw(l: Ledger, a: Address, amount: nat): Ledger
    requires a in l && amount <= l[a].lamports
  {
    if amount == l[a].lamports then l - {a} else l[a := l[a].(lamports := l[a].lamports - amount)]
  }

  function Execute(l: Ledger, tx: Transaction): Ledger
    requires Accepts(l, tx)
  {
    match tx
    case Deactivate(a) => l[a := l[a].(activation := Deactivating)]
    case Delegate(a) => l[a := l[a].(activation := Activating, credits := Some(0))]
    case Merge(d, s) => (l - {s})[d := l[d].(lamports := l[d].lamports + l[s].lamports)]
    case SplitAndDelegate(s, amount, target) =>
      Withdraw(l, s, amount)[target := Account(amount, Activating, Some(0))]
    case SplitAndDeactivate(s, amount, target) =>
      Withdraw(l, s, amount)[target := Account(amount, Deactivating, l[s].credits)]
  }

  function Touched(tx: Transaction): set<Address> {
    match tx
    case Deactivate(a) => {a}
    case Delegate(a) => {a}
    case Merge(d, s) => {d, s}
    case SplitAndDelegate(s, _, target) => {s, target}
    case SplitAndDeactivate(s, _, target) => {s, target}
  }

  // ---------- Whole batches ----------

  /** `landed` executed one after the other from `l`, each accepted in its turn. */
  ghost predicate Lands(l: Ledger, landed: seq<Transaction>)
    decreases |landed|
  {
    landed == [] ||
    var n := |landed| - 1;
    Lands(l, landed[..n]) && Accepts(Play(l, landed[..n]), landed[n])
  }

  ghost function Play(l: Ledger, landed: seq<Transaction>): Ledger
    decreases |landed|
  {
    if landed == [] then l
    else
      var n := |landed| - 1;
      var before := Play(l, landed[..n]);
      if Accepts(before, landed[n]) then Execute(before, landed[n]) else before
  }

  lemma LandOneMore(l: Ledger, landed: seq<Transaction>, tx: Transaction)
    requires Lands(l, landed) && Accepts(Play(l, landed), tx)
    ensures Lands(l, landed + [tx]) && Play(l, landed + [tx]) == Execute(Play(l, landed), tx)
  {
    assert (landed + [tx])[..|landed|] == landed;
  }

  function LamportsAt(l: Ledger): Address -> nat {
    (a: Address) => if a in l then l[a].lamports else 0
  }

  /** All the lamports on the ledger. */
  ghost function Total(l: Ledger): nat {
    SumSet(l.Keys, LamportsAt(l))
  }

  lemma TotalWithout(l: Ledger, a: Address)
    requires a in l
    ensures Total(l) == l[a].lamports + Total(l - {a})
  {
    SumSetWithout(l.Keys, a, LamportsAt(l));
    assert (l - {a}).Keys == l.Keys - {a};
    SumSetSame(l.Keys - {a}, LamportsAt(l), LamportsAt(l - {a}));
  }

  lemma TotalSet(l: Ledger, a: Address, account: Account)
    ensures Total(l[a := account]) == Total(l - {a}) + account.lamports
    ensures a !in l ==> Total(l[a := account]) == Total(l) + account.lamports
    ensures a in l ==> Total(l[a := account]) == Total(l) - l[a].lamports + account.lamports
  {
    TotalWithout(l[a := account], a);
    assert l[a := account] - {a} == l - {a};
    if a in l {
      TotalWithout(l, a);
    } else {
      assert l - {a} == l;
    }
  }

  lemma WithdrawTotal(l: Ledger, a: Address, amount: nat)
    requires a in l && amount <= l[a].lamports
    ensures Total(Withdraw(l, a, amount)) == Total(l) - amount
  {
    TotalWithout(l, a);
    TotalSet(l, a, l[a].(lamports := l[a].lamports - amount));
  }

  /** No transaction creates or destroys lamports. */
  lemma ExecuteConserves(l: Ledger, tx: Transaction)
    requires Accepts(l, tx)
    ensures Total(Execute(l, tx)) == Total(l)
  {
    match tx
    case Deactivate(a) => TotalSet(l, a, l[a].(activation := Deactivating));
    case Delegate(a) => TotalSet(l, a, l[a].(activation := Activating, credits := Some(0)));
    case Merge(d, s) =>
      TotalWithout(l, s);
      TotalSet(l - {s}, d, l[d].(lamports := l[d].lamports + l[s].lamports));
    case SplitAndDelegate(s, amount, target) =>
      WithdrawTotal(l, s, amount);
      TotalSet(Withdraw(l, s, amount), target, Account(amount, Activating, Some(0)));
    case SplitAndDeactivate(s, amount, target) =>
      WithdrawTotal(l, s, amount);
      TotalSet(Withdraw(l, s, amount), target, Account(amount, Deactivating, l[s].credits));
  }

  lemma {:induction false} PlayConserves(l: Ledger, landed: seq<Transaction>)
    ensures Total(Play(l, landed)) == Total(l)
    decreases |landed|
  {
    if landed != [] {
      var n := |landed| - 1;
      PlayConserves(l, landed[..n]);
      var before := Play(l, landed[..n]);
      if Accepts(before, landed[n]) {
        ExecuteConserves(before, landed[n]);
      }
    }
  }

  /** An address no transaction of the batch names keeps its account, or stays unused. */
  lemma {:induction false} PlayFrame(l: Ledger, landed: seq<Transaction>, a: Address)
    requires forall tx :: tx in landed ==> a !in Touched(tx)
    ensures a in Play(l, landed) <==> a in l
    ensures a in l ==> Play(l, landed)[a] == l[a]
    decreases |landed|
  {
    if landed != [] {
      var n := |landed| - 1;
      assert landed[n] in landed;
      PlayFrame(l, landed[..n], a);
    }
  }

  // ---------- The reserve ----------

  /** Lamports the transaction takes out of the reserve. */
  function ReserveDebit(tx: Transaction): nat {
    if tx.SplitAndDelegate? && tx.source == Reserve then tx.amount else 0
  }

  /** The only ways the pool uses its reserve: as the destination of merges and as a source of stake. */
  ghost predicate RespectsReserve(tx: Transaction) {
    match tx
    case Deactivate(a) => a != Reserve
    case Delegate(a) => a != Reserve
    case Merge(d, s) => s != Reserve
    case SplitAndDelegate(s, _, target) => target != Reserve
    case SplitAndDeactivate(s, _, target) => s != Reserve && target != Reserve
  }

  lemma {:induction false} PlayReserve(l: Ledger, landed: seq<Transaction>)
    requires Reserve in l
    requires forall tx :: tx in landed ==> RespectsReserve(tx)
    requires SumBy(landed, ReserveDebit) == 0 || SumBy(landed, ReserveDebit) < l[Reserve].lamports
    ensures var l' := Play(l, landed);
            && Reserve in l'
            && l'[Reserve].lamports >= l[Reserve].lamports - SumBy(landed, ReserveDebit)
            && l'[Reserve].activation == l[Reserve].activation
    decreases |landed|
  {
    if landed != [] {
      var n := |landed| - 1;
      assert landed[n] in landed;
      PlayReserve(l, landed[..n]);
    }
  }

  /** Without merges the reserve goes down by what is taken out of it, to the lamport. */
  lemma {:induction false} ReservePays(l: Ledger, landed: seq<Transaction>)
    requires Reserve in l && Lands(l, landed)
    requires forall tx :: tx in landed ==> RespectsReserve(tx) && !tx.Merge?
    requires SumBy(landed, ReserveDebit) == 0 || SumBy(landed, ReserveDebit) < l[Reserve].lamports
    ensures Reserve in Play(l, landed)
    ensures Play(l, landed)[Reserve].lamports == l[Reserve].lamports - SumBy(landed, ReserveDebit)
    decreases |landed|
  {
    if landed != [] {
      var n := |landed| - 1;
      assert landed[n] in landed;
      ReservePays(l, landed[..n]);
    }
  }

  lemma {:induction false} PlayMakesNoReserve(l: Ledger, landed: seq<Transaction>)
    requires Reserve !in l
    requires forall tx :: tx in landed ==> RespectsReserve(tx)
    ensures Reserve !in Play(l, landed)
    decreases |landed|
  {
    if landed != [] {
      assert landed[|landed| - 1] in landed;
      PlayMakesNoReserve(l, landed[..|landed| - 1]);
    }
  }

  /** What the bot may draw, keeping `minimum` in the account. */
  function Available(l: Ledger, minimum: nat): nat {
    SaturatingSub(if Reserve in l then l[Reserve].lamports else 0, minimum)
  }

  /** The reserve account is not overdrawn: from `l` to `l'` it stays, and it only falls down to
      `minimum`, if it was above it at all. */
  ghost predicate ReserveKept(l: Ledger, l': Ledger, minimum: nat) {
    Reserve in l ==>
      && Reserve in l'
      && (l'[Reserve].lamports >= minimum || l'[Reserve].lamports >= l[Reserve].lamports)
  }

  /** Any part of a batch that draws at most what is available, landing in any order, keeps the reserve. */
  lemma PartOfBatchKeepsReserve(l: Ledger, batch: seq<Transaction>, landed: seq<Transaction>, minimum: nat)
    requires forall tx :: tx in batch ==> RespectsReserve(tx)
    requires SumBy(batch, ReserveDebit) <= Available(l, minimum)
    requires multiset(landed) <= multiset(batch)
    requires minimum > 0
    ensures ReserveKept(l, Play(l, landed), minimum)
    ensures Reserve in Play(l, landed) ==>
              Reserve in l && Play(l, landed)[Reserve].activation == l[Reserve].activation
    ensures Reserve in l ==>
              Play(l, landed)[Reserve].lamports >= l[Reserve].lamports - SumBy(landed, ReserveDebit)
  {
    SameElements(landed, batch);
    SumByPart(landed, batch, ReserveDebit);
    if Reserve in l {
      PlayReserve(l, landed);
    } else {
      PlayMakesNoReserve(l, landed);
    }
  }

  // ---------- The cluster ----------

  /** What has landed and what is pending are parts of the batch, and all of it if nothing has failed. */
  ghost predicate Underway(
    batch: seq<Transaction>, landed: seq<Transaction>, pending: seq<Transaction>, ok: bool)
  {
    && multiset(landed) + multiset(pending) <= multiset(batch)
    && (ok ==> multiset(landed) + multiset(pending) == multiset(batch))
  }

  /** A transaction that is taken lands or fails. */
  lemma OneLess(
    batch: seq<Transaction>, landed: seq<Transaction>, pending: seq<Transaction>, i: nat, ok: bool)
    requires i < |pending| && Underway(batch, landed, pending, ok)
    ensures Underway(batch, landed + [pending[i]], RemoveAt(pending, i), ok)
    ensures Underway(batch, landed, RemoveAt(pending, i), false)
    ensures pending[i] in batch
  {
    RemoveAtMultiset(pending, i);
    assert multiset(landed + [pending[i]]) == multiset(landed) + multiset{pending[i]};
    assert pending[i] in multiset(batch);
  }

  /** `failures` counts the batches of which the client was told that they did not land in full, and
      `rejections` those of which the stake program did not take every transaction. */
  class Cluster {
    var accounts: Ledger
    ghost var failures: nat
    ghost var rejections: nat

    /** The program-account query: every stake address of the staker and their lamports together. */
    method GetAllStake() returns (addresses: set<Address>, total: nat)
      ensures addresses == accounts.Keys && total == Total(accounts)
    {
      addresses, total := {}, 0;
      var rest := accounts.Keys;
      while rest != {}
        invariant addresses + rest == accounts.Keys
        invariant total + SumSet(rest, LamportsAt(accounts)) == Total(accounts)
        decreases rest
      {
        var a :| a in rest;
        SumSetWithout(rest, a, LamportsAt(accounts));
        addresses := addresses + {a};
        total := total + accounts[a].lamports;
        rest := rest - {a};
      }
    }

    /** Sends a batch. The transactions land in any order; each may be rejected by the stake program
        or be lost by the network, and `ok` says that all of them landed. A rejection is recorded
        with what had landed before it. */
    method SendAndConfirm(batch: seq<Transaction>)
      returns (ok: bool, ghost landed: seq<Transaction>, ghost rejected: set<Rejection>)
      modifies this
      ensures accounts == Play(old(accounts), landed) && Lands(old(accounts), landed)
      ensures multiset(landed) <= multiset(batch)
      ensures ok ==> multiset(landed) == multiset(batch)
      ensures forall r :: r in rejected ==> Rejected(old(accounts), batch, r)
      ensures failures == old(failures) + (if ok then 0 else 1)
      ensures rejections == old(rejections) + (if rejected == {} then 0 else 1)
    {
      ok, landed, rejected := true, [], {};
      var pending := batch;
      while pending != []
        invariant accounts == Play(old(accounts), landed) && Lands(old(accounts), landed)
        invariant Underway(batch, landed, pending, ok)
        invariant forall r :: r in rejected ==> Rejected(old(accounts), batch, r)
        decreases |pending|
      {
        var i: nat :| i < |pending|;
        var tx := pending[i];
        OneLess(batch, landed, pending, i, ok);
        pending := RemoveAt(pending, i);
        var lost: bool := *;
        if !Accepts(accounts, tx) {
          ok := false;
          rejected := rejected + {Rejection(landed, tx)};
        } else if lost {
          ok := false;
        } else {
          LandOneMore(old(accounts), landed, tx);
          accounts := Execute(accounts, tx);
          landed := landed + [tx];
        }
      }
      failures := old(failures) + (if ok then 0 else 1);
      rejections := old(rejections) + (if rejected == {} then 0 else 1);
    }

    /** The next epoch: activations and deactivations finish, except for the accounts still warming
        up or cooling down, and the vote program may have moved the credits of delegated accounts. */
    method AdvanceEpoch(slow: set<Address>, credits: map<Address, nat>)
      modifies this`accounts
      ensures accounts == Advanced(old(accounts), slow, credits)
    {
      accounts := Advanced(accounts, slow, credits);
    }
  }

  datatype Rejection = Rejection(before: seq<Transaction>, tx: Transaction)

  /** The stake program rejects the transaction once `before`, from the rest of its batch, has landed. */
  ghost predicate Rejected(l: Ledger, batch: seq<Transaction>, r: Rejection) {
    && multiset(r.before) + multiset{r.tx} <= multiset(batch)
    && !Accepts(Play(l, r.before), r.tx)
  }

  function Advanced(l: Ledger, slow: set<Address>, credits: map<Address, nat>): (r: Ledger)
    ensures r.Keys == l.Keys
  {
    map a | a in l :: NextEpoch(l[a], a in slow, if a in credits then Some(credits[a]) else None)
  }

  function NextEpoch(a: Account, slow: bool, credits: Option<nat>): Account {
    var activation :=
      if slow then a.activation
      else match a.activation
        case Activating => Active
        case Active => Active
        case Deactivating => Inactive
        case Inactive => Inactive;
    Account(a.lamports, activation, if a.credits.Some? && credits.Some? then credits else a.credits)
  }
}
