/** Entities shared by the two stake pools of the bot (generic_stake_pool.rs). */
module StakeTypes {

  /** A public key, reduced to its identity. */
  datatype Pubkey = Pubkey(id: nat)

  const LAMPORTS_PER_SOL: nat := 1_000_000_000
  const MIN_STAKE_ACCOUNT_BALANCE: nat := LAMPORTS_PER_SOL
  const MIN_STAKE_CHANGE_AMOUNT: nat := MIN_STAKE_ACCOUNT_BALANCE

  datatype ValidatorStakeState = NoStake | Baseline | Bonus

  datatype ValidatorStake = ValidatorStake(
    identity: Pubkey,
    voteAddress: Pubkey,
    stakeState: ValidatorStakeState,
    priority: bool)

  datatype VoteAccountInfo = VoteAccountInfo(identity: Pubkey, voteAddress: Pubkey, activeStake: nat, epochCredits: nat)

  /** How many validators of the list are at the given stake level. */
  function CountAt(desired: seq<ValidatorStake>, level: ValidatorStakeState): nat {
    if desired == [] then 0
    else CountAt(desired[..|desired| - 1], level)
         + (if desired[|desired| - 1].stakeState == level then 1 else 0)
  }

  /** The classification is keyed by identity, and each identity keeps one vote account. */
  ghost predicate Distinct(desired: seq<ValidatorStake>) {
    forall i, j :: 0 <= i < j < |desired| ==>
      desired[i].identity != desired[j].identity && desired[i].voteAddress != desired[j].voteAddress
  }
}
