# Verified models of the stake bots and their on-chain counterparts

This project models, in Dafny, the decision logic of two stake bots and of the programs they talk to,
and proves properties of it: the rebalancing protocol and the validator classification of the
stake-o-matic bot, its resend loop and its participant registry program, and the cranks, the share
arithmetic and the score apportionment of the Marinade repository. RPC calls are replaced by explicit
state: ledgers of stake accounts, on-chain record lists, and scripts of what a network answers.

`dafny verify dfyconfig.toml` checks everything.

## How the files hang together

| Files | Component |
|---|---|
| `Arithmetic`, `Collections`, `StakeTypes` | division rounded down; stable sort, sums over sequences and sets; shared entities |
| `StakeAllocator` | the allocator with a draining reserve that both pools use |
| `StakePoolBonus` | targets, held-back rent and rebalancing of `stake_pool.rs` |
| `StakeLedger`, `StakeBatches`, `StakePhases`, `StakeLevels`, `StakePoolV0` | the ledger of stake accounts, the batches of transactions, what each phase plans and leaves behind, what the levels mean for a validator, and the protocol of `stake_pool_v0.rs` over many epochs |
| `HaltGroup`, `BlockProducers`, `PoorVoters`, `DataCenterSeniority`, `EpochHistory` | the classification in `main.rs` and the history in `db.rs` |
| `SwapRemoveList`, `StakesInfo` | the on-chain record list, the client's snapshot of it, and why working downwards keeps its indices right |
| `UpdatePrice`, `RemoveValidators`, `MergeStakes` | three clients that send batches of index-based operations |
| `StakeDelta`, `DeactivateStake`, `UndisturbedCrank` | the crank that stakes or unstakes while it reads the stake delta anew, what the program does with one deactivation, and the two together |
| `SendAndConfirm` | send, confirm and resend against a network |
| `Shares`, `ScoreApportionment` | rounding in pool shares and in the apportionment of a stake target |
| `Registry` | Borsh encodings and the byte-level processor of the participant registry |

Where the source changes state, so does the model: classes with fields, loops with invariants, arrays
that are sorted or rewritten in place. Such a method is proved against a function or a predicate, and
the lemmas are about that function. Transactions may fail, be lost, or land while the client is told
otherwise; the on-chain classes log for each one whether it hit what it was meant for, whether it
landed, and what the client was told, and the main contracts speak about that log.

## Findings

- `StakePoolBonus.FitsInPoolIff`: all targets plus rent for every increase fit in the pool, whatever part
  of the pool is in the reserve, if and only if there is room for rent for every validator in need that
  the demand ahead of it in the queue would let a reserve with the whole pool reach. The code does not
  check that. `RentMayNotFitWithoutBonus` is a pool without Bonus validators where they do not fit,
  `RentMayNotFitWithBonus` one with a Bonus validator. For all reserves and all busy sets at once,
  `FitsIff` asks for room for rent for everyone in need.
- `StakePoolV0.TotalStakeAmount`: the subtraction of the required reserve is unchecked 64-bit
  arithmetic. The baseline check compares what the pool has above its required reserve if and only if
  the pool holds that reserve (`ChecksSurplusIff`); below it, `UncoveredBaselinePassesIff` says which
  uncovered baselines pass, and in `EmptyPoolCoversBaseline` an empty pool passes. Nothing is drawn
  from the reserve then (`WrappedTotalDrawsNothing`).
- `StakePoolV0.DanglingIsReachable`: a validator that is taken off the list can be left with an active
  transient account and no stake account, when the deactivation of the transient account is lost, and
  also without any loss, when it is slow to warm up (`DanglingWithoutLoss`). Once the validator is listed
  again, every epoch fails with `InvalidStakeAccount` until it is taken off the list (`DanglingPersists`).
- `StakePhases.MergesTaken`: before it merges an active transient account, the v0 pool compares only the
  credits of the two accounts, which does not make sure that the stake program takes the merge. No merge
  is ever rejected if all of them would be taken at the start, and otherwise the batch cannot succeed
  and the epoch ends there; `TakeableIff` says when a merge is taken, and in
  `StakePoolV0.RefusedMergeIsReachable` one is not.
- `HaltGroup.FlaggedIffMember`: the flag is set by comparing stakes. Exactly the members are flagged if
  and only if the first validator outside the group has less stake than the last one inside; a tie at
  that border flags an outsider as well (`TieAtTheBorder`), any other tie does no harm.
- `BlockProducers.ClassifyProducers` divides by zero exactly when there is no leader slot,
  `PoorVoters.ClassifyPoorVoters` when there is no vote account, and `ScoreApportionment.Apportion`
  when the list is not empty and no score is left.
- `StakeDelta.NeverCountsMoreIff`: a transaction that succeeds without unstaking anything is counted as
  if it had, so for several validators together more can be counted than the shortfall, as in
  `CountedButNotDone`. Among the validators that can be unstaked from in this epoch, take those with more
  than a lamport too much: whatever the stakes are and whatever happens, no more than the shortfall is
  counted if and only if there is at most one of them, or together they have no more than the
  shortfall too much. It takes transactions that are only simulated, others that act on the same stakes,
  stale readings, or a minimum stake of zero.
- `UndisturbedCrank.StaysWithinIff`: with nobody else at work, and whatever transactions or reports are
  lost, the crank counts no more than the shortfall if and only if the minimum stake is not zero. Then
  `CountsNoMoreThanIsMoved` also says that it counts no more than the program unstakes. With a minimum
  of zero the first split marks a validator although more is wanted of it; its other stakes are left
  alone for the epoch, but counted (`FourAreCounted`).
- `DeactivateStake.RunExceedsShortfallIff`: the program deactivates a whole stake when less than twice the
  minimum would be left of it. A run unstakes more than the shortfall if and only if one of its calls
  finds a stake that holds more than the shortfall at that point, something is wanted of it, and less
  than twice the minimum stake would be left. It unstakes more than the client estimates if and only if
  the stake holds more than is wanted, but less than twice the minimum more (`ExceedsEstimateIff`). In
  `WholeStakeGoes` both happen; over any run the excess is less than twice the minimum stake
  (`MovesLittleBeyondShortfall`).
- `Shares.DepositAndWithdraw`: whoever deposits first into a pool that already holds value owns all of
  that value; in every other case an immediate withdrawal gives no gain.
- `Shares.WorthFallsOnlyByRounding`: since the price of mSOL is rounded down, a removal can lower what a
  share is worth (`RemovalCanLowerWorth`), by no more than one lamport of the pool; nothing else lowers
  it while the price stays.
- `SendAndConfirm.DryRunSendsNothing`: in a dry run all transactions share the default signature, so
  the result sets hold one entry for all of them.
- `Registry`: the documentation of the instructions asks for a participant in a certain state for
  Withdraw, Approve and Reject; the code does not check the state there, and the model follows the
  code. `ApproveSucceeds`, `RejectSucceeds` and `WithdrawSucceeds` say exactly when they succeed, and
  in `StateIsNotChecked` a rejected participant is approved and withdraws. An approval of an account
  that nobody has applied for fails only because its two identities are equal.
- `RemoveValidators.Select`: the filter is evaluated from the last record to the first, since it is
  consumed in reverse, so a name stands for the last record that carries it.

## Model

| member | source | states |
|---|---|---|
| `StakeAllocator.DistributeValidatorStake` | stake-o-matic/bot/src/stake_pool.rs:842-1004 | the sorting, bucketing, draining loop issues exactly the orders, unfunded set and remaining reserve of a closed form that depends only on the queue and the initial reserve; the queue holds the entries in order, every decision approaches the amount of its level, and what remains is the reserve less what the issued orders take |
| `StakeAllocator.DecidedAsInClosedForm` | stake-o-matic/bot/src/stake_pool.rs:917-975 | what is decided from the running reserve is what the demand of everyone ahead in the queue determines |
| `StakeAllocator.DecisionsApproachTheLevels` | stake-o-matic/bot/src/stake_pool.rs:912-975 | an addition never exceeds what the validator lacks of the amount of its level, a removal leaves exactly that amount, and the other decisions follow from the balance and that amount alone |
| `StakeAllocator.QueueIsPermutation` | stake-o-matic/bot/src/stake_pool.rs:870-910 | no validator is lost or processed twice by bucketing and sorting |
| `StakeAllocator.QueueInOrder` | stake-o-matic/bot/src/stake_pool.rs:859-910 | of two validators in the queue the one with priority comes first, then the one of the lower level, then the one with the smaller balance |
| `StakeAllocator.FundingShape` | stake-o-matic/bot/src/stake_pool.rs:936-975 | validators in need are fully funded up to a point, then at most one partially, then none |
| `StakeAllocator.GivenInFullWhileItLasts` | stake-o-matic/bot/src/stake_pool.rs:936-960 | whoever gets less than it lacks leaves too little in the reserve for one more change, and nobody behind it is given anything |
| `StakeAllocator.NobodyBehindIsGiven` | stake-o-matic/bot/src/stake_pool.rs:859-960 | if a validator that lacks enough to bother is not given all of it, no order is issued for anyone that does not come before it |
| `StakeAllocator.SumOfLevels` | stake-o-matic/bot/src/stake_pool.rs:912-916 | the amounts of the levels, summed over the list, are the counts of the levels times their targets |
| `StakeAllocator.NoOvershoot` | stake-o-matic/bot/src/stake_pool.rs:917-975 | no validator overshoots its target, no change is below the minimum, a drained validator keeps exactly its target |
| `StakeAllocator.ReserveAccounting` | stake-o-matic/bot/src/stake_pool.rs:936-996 | the reserve is never overdrawn; it covers the whole demand exactly when it can, and otherwise what is left is too little for one more change |
| `StakePoolBonus.IncreasesWereReserved` | stake-o-matic/bot/src/stake_pool.rs:262-286 | the increases issued never outnumber the ones rent was held back for, although that count uses the higher estimate |
| `StakePoolBonus.CountIsExact` | stake-o-matic/bot/src/stake_pool.rs:262-279 | with the estimate as the target and nobody busy, the count is exactly the number of validators that lack a change worth making |
| `StakePoolBonus.TargetsAndRentFit` | stake-o-matic/bot/src/stake_pool.rs:240-286 | if the pool covers the baseline and the rent held back for the estimated increases, the targets of all levels, with rent for every increase issued or held back for, fit in it, and leave less than one lamport per Bonus validator; otherwise the bonus is zero |
| `StakePoolBonus.FitsIff` | stake-o-matic/bot/src/stake_pool.rs:240-342 | all targets plus rent for every increase fit for every busy set and every reserve exactly if there is room for rent for everyone in need; for any number of Bonus validators |
| `StakePoolBonus.FitsInPoolIff` | stake-o-matic/bot/src/stake_pool.rs:240-342 | for a busy set, and every reserve that is part of the pool, they fit exactly if there is room for rent for everyone whom a reserve with the whole pool would reach |
| `StakePoolBonus.IncreasesAreWithinReach` | stake-o-matic/bot/src/stake_pool.rs:917-975 | an increase is issued exactly for those in need for whom the demand ahead leaves room for rent and the smallest increase |
| `StakePoolBonus.RentMayNotFitWithoutBonus` | stake-o-matic/bot/src/stake_pool.rs:262-263 | a pool of two SOL in the reserve, without Bonus validators, where targets and rent exceed the total |
| `StakePoolBonus.RentMayNotFitWithBonus` | stake-o-matic/bot/src/stake_pool.rs:262-286 | the same with a busy Bonus validator, since there is nothing to hold the rent back from |
| `StakePoolBonus.Rebalance` | stake-o-matic/bot/src/stake_pool.rs:240-342 | fails exactly when the baseline is not covered; every order is for a listed validator that is not busy, every such validator is decided on from the balance in the list, and nobody is served before those ahead of it in priority, level and balance; the reserve pays for the orders exactly; the increases are the counted ones at most, and fit as in the laws above |
| `StakeLedger.ExecuteConserves` | stake-o-matic/bot/src/stake_pool_v0.rs:280-606 | no transaction of the pool creates or destroys lamports |
| `StakeLedger.PartOfBatchKeepsReserve` | stake-o-matic/bot/src/stake_pool_v0.rs:254-278 | any part of a batch that draws at most what is available, landing in any order, keeps the required reserve |
| `StakeLedger.ReservePays` | stake-o-matic/bot/src/stake_pool_v0.rs:472-606 | without merges, the reserve goes down by exactly what the landed transactions take |
| `StakeLedger.Cluster.SendAndConfirm` | stake-o-matic/bot/src/stake_pool_v0.rs:327-334 | some of the batch lands in some order; success means all of it did |
| `StakeLedger.Cluster.AdvanceEpoch` | stake-o-matic/bot/src/stake_pool_v0.rs:337-437 | activations and deactivations finish between two epochs, except where they are slow |
| `StakeBatches.SplitNeverRejected` | stake-o-matic/bot/src/stake_pool_v0.rs:685-770 | whatever part of the batch has landed, the stake program takes every further split |
| `StakeBatches.AcceptedAsPlanned` | stake-o-matic/bot/src/stake_pool_v0.rs:280-606 | a transaction of a batch whose transactions share only the reserve is taken, after any landed part of the rest, exactly if it would have been taken at the start |
| `StakeBatches.OrphansTaken` | stake-o-matic/bot/src/stake_pool_v0.rs:280-335 | the orphans' batch is not rejected if its merges can be taken |
| `StakeBatches.CreationsTaken` | stake-o-matic/bot/src/stake_pool_v0.rs:472-606 | no creation or delegation is ever rejected |
| `StakeBatches.SplitSettles` | stake-o-matic/bot/src/stake_pool_v0.rs:685-770 | a split leaves its amount, and nothing else, in the transient account and the rest in the stake account |
| `StakeBatches.MergeSettles` | stake-o-matic/bot/src/stake_pool_v0.rs:337-437 | a landed merge moves all lamports of the source into its destination |
| `StakeBatches.OrdersAreSplits` | stake-o-matic/bot/src/stake_pool_v0.rs:609-770 | the allocator's orders use unused transient addresses of different validators and never take more than a stake account holds |
| `StakeBatches.OrphanBatchDone` | stake-o-matic/bot/src/stake_pool_v0.rs:280-335 | active orphans are deactivated, inactive ones merged into the reserve, the others left alone |
| `StakeBatches.CreationSettles` | stake-o-matic/bot/src/stake_pool_v0.rs:472-606 | a missing stake account is created or an inactive one delegated, and no other is touched |
| `StakePhases.PlanMerges` | stake-o-matic/bot/src/stake_pool_v0.rs:337-437 | which merges are sent, who is busy, and that it stops exactly at a transient account without stake account |
| `StakePhases.TakeableIff` | stake-o-matic/bot/src/stake_pool_v0.rs:386-424 | when the stake program takes the merge of a validator's transient account |
| `StakePhases.MergesTaken` | stake-o-matic/bot/src/stake_pool_v0.rs:337-437 | the merges are never rejected if all can be taken at the start, and cannot all land otherwise |
| `StakePhases.PlanCreations` | stake-o-matic/bot/src/stake_pool_v0.rs:472-606 | what is created or delegated while the available reserve lasts, and that exactly the validators without active stake become busy |
| `StakePhases.CreationsPaid` | stake-o-matic/bot/src/stake_pool_v0.rs:472-606 | when all creations have landed, the reserve has paid for every missing account, or holds too little above its minimum for one more |
| `StakePoolV0.TargetsFitIffCovered` | stake-o-matic/bot/src/stake_pool_v0.rs:165-205 | all targets fit in the pool exactly when it covers the minimum and baseline levels; with a Bonus validator they then leave less than one lamport for each, otherwise they are just those levels |
| `StakePoolV0.ChecksSurplusIff` | stake-o-matic/bot/src/stake_pool_v0.rs:162-183 | the baseline check compares what is above the required reserve, for every baseline, exactly if the pool holds that reserve |
| `StakePoolV0.BaselineCoveredIff` | stake-o-matic/bot/src/stake_pool_v0.rs:162-183 | for which ledgers the baseline check passes, with the wrap-around written out |
| `StakePoolV0.UncoveredBaselinePassesIff` | stake-o-matic/bot/src/stake_pool_v0.rs:162-183 | for which amounts an uncovered baseline passes |
| `StakePoolV0.EmptyPoolCoversBaseline` | stake-o-matic/bot/src/stake_pool_v0.rs:162-183 | an empty pool passes the check for a Baseline validator |
| `StakePoolV0.WrappedTotalDrawsNothing` | stake-o-matic/bot/src/stake_pool_v0.rs:254-278 | nothing is available in the reserve of a pool that holds less than it requires |
| `StakePoolV0.StakePool.New` | stake-o-matic/bot/src/stake_pool_v0.rs:37-66 | a pool is made exactly from amounts that are not too small |
| `StakePoolV0.StakePool.MergeOrphanedStakeAccounts` | stake-o-matic/bot/src/stake_pool_v0.rs:280-335 | orphans are handled, everything else but the reserve is untouched, nothing is lost |
| `StakePoolV0.StakePool.MergeTransientStakeAccounts` | stake-o-matic/bot/src/stake_pool_v0.rs:337-437 | a validator is busy exactly if its transient account cannot be merged; all others have none afterwards |
| `StakePoolV0.StakePool.CreateValidatorStakeAccounts` | stake-o-matic/bot/src/stake_pool_v0.rs:472-606 | exactly the validators without active stake become busy; the reserve pays for accounts while it lasts, and whoever is turned down finds too little for one more in it |
| `StakePhases.NotBusyAreReady` | stake-o-matic/bot/src/stake_pool_v0.rs:132-249 | the busy set of the earlier phases leaves only validators with active stake and an unused transient address |
| `StakePoolV0.StakePool.DistributeValidatorStake` | stake-o-matic/bot/src/stake_pool_v0.rs:609-805 | no transaction is rejected, and both accounts of every validator end up as decided: brought to the amount of its level, as reported |
| `StakeLevels.LevelsReached` | stake-o-matic/bot/src/stake_pool_v0.rs:685-770 | when the whole batch has landed, every validator ready for a split has been brought to the amount of its level |
| `StakeLevels.LevelsReported` | stake-o-matic/bot/src/stake_pool_v0.rs:694-788 | the reported targets and actions are those of the levels |
| `StakeLevels.ShortMeansDrained` | stake-o-matic/bot/src/stake_pool_v0.rs:609-770 | nobody is left short while the reserve has enough above its minimum for one more change |
| `StakeLevels.ServedBefore` | stake-o-matic/bot/src/stake_pool_v0.rs:626-770 | whoever is given stake comes before everyone who is left short |
| `StakePoolV0.StakePool.Apply` | stake-o-matic/bot/src/stake_pool_v0.rs:95-251 | one epoch: lamports conserved, reserve kept; which error, and that there is none exactly if no batch fails, no listed transient account dangles and the baseline is covered; busy are exactly the validators with an unmergeable transient account or without active stake, all others are ready and handed out to; the total read at the start is still right then; orphans handled; no transaction rejected if the merges can be taken; every decision, every reason for being busy and who goes unfunded is reported as it is; a dry run leaves the distribution undone |
| `StakePoolV0.EpochBringsToLevel` | stake-o-matic/bot/src/stake_pool_v0.rs:609-770 | after an epoch that ends well, every listed validator that has active stake and no transient account in the way has been brought, with what was merged into it, to its level: 1 SOL, the baseline or the bonus; if it has at least the smallest change more it keeps exactly that amount, otherwise nothing is taken from it and its transient account never holds more than it lacks |
| `StakePoolV0.EpochReportsLevel` | stake-o-matic/bot/src/stake_pool_v0.rs:694-788 | its reported target is the amount of its level and its reported action fits that amount and its balance, in a dry run as well |
| `StakePoolV0.EpochLeavesTheRest` | stake-o-matic/bot/src/stake_pool_v0.rs:337-606 | every other listed validator is reported with the reason why it waits, and its accounts are just as the merges and creations leave them; lack of funds is reported only if the reserve is too low for one more account |
| `StakePoolV0.EpochLeavesShort` | stake-o-matic/bot/src/stake_pool_v0.rs:609-770 | if someone is left below its level, the reserve has too little for one more change, and whoever was given stake comes before it in priority, level and balance |
| `StakePoolV0.ReportedTargetsFit` | stake-o-matic/bot/src/stake_pool_v0.rs:165-249 | the reported targets, summed over the list, fit in the pool if it covers the minimum and baseline levels; with nobody busy exactly then, and with a Bonus validator they leave less than one lamport for each |
| `StakePoolV0.StakePool.RunOfEpochs` | stake-o-matic/bot/src/stake_pool_v0.rs:95-251 | over any run of epochs, with new validator lists and any failures in between, each epoch keeps all that is promised of one; the outcomes returned are those of the epochs, and the batches that failed or were rejected in them are all that were |
| `StakePoolV0.LinkedAt` | stake-o-matic/bot/src/stake_pool_v0.rs:95-251 | each epoch of a run begins where the one before ended, with what the run has kept of its first ledger |
| `StakePoolV0.DanglingIsReachable` | stake-o-matic/bot/src/stake_pool_v0.rs:280-335 | lost transactions leave a delisted validator with an active transient account and no stake account |
| `StakePoolV0.DanglingWithoutLoss` | stake-o-matic/bot/src/stake_pool_v0.rs:280-335 | so does a transient account that is slow to warm up, with every planned transaction landing |
| `StakePoolV0.RefusedMergeIsReachable` | stake-o-matic/bot/src/stake_pool_v0.rs:386-413 | after a lost deactivation a merge is planned that the stake program refuses |
| `StakePoolV0.DanglingPersists` | stake-o-matic/bot/src/stake_pool_v0.rs:386-413 | from then on every epoch in which the validator is listed fails before the stake is handed out |
| `HaltGroup.FindHaltGroup` | stake-o-matic/bot/src/main.rs:1192-1207 | the group holds more than the limit and one member less does not; without enough stake the whole list is taken |
| `HaltGroup.LimitIsPercentage` | stake-o-matic/bot/src/main.rs:1198 | the limit is 33 percent of the active stake, rounded down by less than 33 lamports |
| `HaltGroup.FirstAreHeaviest` | stake-o-matic/bot/src/main.rs:1192-1207 | in a descending list no team of k validators holds more than the first k |
| `HaltGroup.NoSmallerTeam` | stake-o-matic/bot/src/main.rs:1192-1207 | no smaller team drawn from the list holds more than the limit |
| `HaltGroup.UnflaggedAreLighter` | stake-o-matic/bot/src/main.rs:1461-1463 | members are flagged; whoever is not has strictly less stake than each member |
| `HaltGroup.FlaggedIffMember` | stake-o-matic/bot/src/main.rs:1461-1463 | for every list, exactly the members are flagged if and only if the next validator has less stake than the last member |
| `HaltGroup.TieAtTheBorder` | stake-o-matic/bot/src/main.rs:1461-1463 | of two validators with equal stake the group has one, and both are flagged |
| `BlockProducers.TallyBlocks` | stake-o-matic/bot/src/main.rs:856-888 | the table holds exactly the validators with slots, with their own counts, and adds up to the totals |
| `BlockProducers.ConfirmedAreCounted` | stake-o-matic/bot/src/main.rs:872-880 | the counted blocks of a validator are its leader slots that hold a confirmed block |
| `BlockProducers.SomePartReaches` | stake-o-matic/bot/src/main.rs:885-906 | mediant inequality: if the whole reaches a rate, some part does |
| `BlockProducers.SomeoneIsNotPoor` | stake-o-matic/bot/src/main.rs:885-906 | in spite of both roundings some validator is no worse than the cluster |
| `BlockProducers.PoorIff` | stake-o-matic/bot/src/main.rs:888-905 | in terms of the counts, exactly which validators are poor, and that the rate of the cluster is rounded by less than one percent |
| `BlockProducers.TooManyIff` | stake-o-matic/bot/src/main.rs:908-911 | there are too many exactly if they reach the next whole percent above the maximum |
| `BlockProducers.ClassifyProducers` | stake-o-matic/bot/src/main.rs:856-930 | quality and poor partition the validators with slots, each judged by its own rate; with any slot the quality set is not empty; the exact error cases |
| `PoorVoters.SomeoneIsKept` | stake-o-matic/bot/src/main.rs:932-977 | a non-empty list never has only poor voters |
| `PoorVoters.PoorVotersIff` | stake-o-matic/bot/src/main.rs:932-977 | exactly who is poor, in terms of the credits and their average; both are rounded down by less than one; there are too many exactly if their share exceeds the maximum |
| `DataCenterSeniority.SeniorityIsBestEnding` | stake-o-matic/bot/src/main.rs:1539-1557 | over any run of epochs the seniority is the maximum, over all endings of the run, of Bonus epochs there minus other epochs |
| `DataCenterSeniority.StoredArePositive` | stake-o-matic/bot/src/main.rs:1539-1557 | only positive counters are stored |
| `EpochHistory.LoadPrevious` | stake-o-matic/bot/src/db.rs:213-253 | terminates with the greatest smaller epoch that has classifications, or none if there is none |
| `EpochHistory.LoadLatest` | stake-o-matic/bot/src/db.rs:257-285 | the latest epoch with classifications |
| `EpochHistory.WalkHistory` | stake-o-matic/bot/src/main.rs:1814-1835 | visits every earlier epoch with classifications exactly once, later ones first |
| `EpochHistory.StakeStateStreak` | stake-o-matic/bot/src/db.rs:124-133 | the loop computes the streak |
| `EpochHistory.StreakIsLongestRepetition` | stake-o-matic/bot/src/db.rs:124-133 | the streak is the length of the longest run of equal states at the front |
| `EpochHistory.StreakOverRun` | stake-o-matic/bot/src/main.rs:1577-1581 | as epochs put their state in front, the streak grows by one on a repetition and otherwise starts again at 1 |
| `SwapRemoveList.RecordList.Remove` | marinade-anchor/programs/marinade-finance/src/list.rs:199-226 | the last record moves into the gap; an index out of bounds changes nothing |
| `SwapRemoveList.RecordList.Set` | marinade-anchor/programs/marinade-finance/src/list.rs:146-172 | one record is replaced |
| `SwapRemoveList.SwapRemoveFrom` | marinade-anchor/programs/marinade-finance/src/list.rs:199-226 | behind a removed record nothing is lost |
| `SwapRemoveList.PassOverTo` | marinade-anchor/cli/cli-common/src/rpc_marinade.rs:132-136 | leaving records out keeps the downward invariant |
| `SwapRemoveList.UpdateBelow` | marinade-anchor/cli/cli-common/src/rpc_marinade.rs:132-136 | updating a record still to come keeps the downward invariant |
| `SwapRemoveList.RemoveBelow` | marinade-anchor/cli/cli-common/src/rpc_marinade.rs:132-136 | removing the next record down keeps all smaller indices right and loses nothing else |
| `StakesInfo.StakesInfo` | marinade-anchor/cli/cli-common/src/rpc_marinade.rs:86-130 | the batched fetch equals the join record by record, entry i with index i; the first unreadable account is the error |
| `StakesInfo.StakesInfoReversed` | marinade-anchor/cli/cli-common/src/rpc_marinade.rs:132-142 | the same, last index first |
| `UpdatePrice.StakeSystem.UpdateActive` | marinade-anchor/cli/bot-cli/src/update_price.rs:86-130 | the update lands only if the index names the stake account |
| `UpdatePrice.ProcessOne` | marinade-anchor/cli/bot-cli/src/update_price.rs:86-196 | one stake: exactly one transaction if it is spent or its record is outdated, for the record meant, and none otherwise; the error cases |
| `UpdatePrice.Process` | marinade-anchor/cli/bot-cli/src/update_price.rs:24-241 | whatever fails, every transaction hits its record and the list keeps exactly the records not removed; as many transactions as stakes need one; if all land, exactly the spent stakes are gone and the others hold the wanted records, also when the crank is skipped and no record is from a later epoch; it ends without error exactly if every stake can be managed, and the result tells whether all went well |
| `UpdatePrice.NothingIsMissed` | marinade-anchor/cli/bot-cli/src/update_price.rs:42-55 | when the crank is skipped, no stake with a record from this or an earlier epoch needs a transaction; one that does need one makes it run if no record is from a later epoch |
| `UpdatePrice.RecordsAgree` | marinade-anchor/cli/bot-cli/src/update_price.rs:76-196 | in the end every record with a delegation not seen in this epoch holds the delegated stake, unless it is deactivating; it is gone exactly if it is deactivating and nothing of it is effective any more; the other records are as before |
| `RemoveValidators.Select` | marinade-anchor/cli/validator-manager/src/remove_validators.rs:39-76 | the selected entries, in strictly descending index order, and the names that were not found |
| `RemoveValidators.BatchHits` | marinade-anchor/cli/validator-manager/src/remove_validators.rs:78-90 | several removals in one transaction all name the validator meant |
| `RemoveValidators.Process` | marinade-anchor/cli/validator-manager/src/remove_validators.rs:19-92 | whatever fails, only selected validators go and the list keeps all others; if all land, all selected ones are gone; the exact error cases |
| `MergeStakes.StakeSystem.Merge` | marinade-anchor/programs/marinade-finance/src/stake_system/merge.rs:15-200 | the effect on both lists; amounts and validators are checked, accounts in the records are not |
| `MergeStakes.SelectMergeable` | marinade-anchor/cli/bot-cli/src/merge_stakes.rs:41-80 | exactly the stakes that can be merged, in list order, with their class; an unknown validator is the only error |
| `MergeStakes.FindDestination` | marinade-anchor/cli/bot-cli/src/merge_stakes.rs:89-163 | the destination is the first of its class, so it is never merged away itself; none found means the source is the first |
| `MergeStakes.IndicesHold` | marinade-anchor/cli/bot-cli/src/merge_stakes.rs:89-147 | at every point of a run both indices that are sent denote the accounts of the snapshot |
| `MergeStakes.MergeShrinks` | marinade-anchor/cli/bot-cli/src/merge_stakes.rs:110-147 | a merge that lands keeps that so |
| `MergeStakes.MergeInStep` | marinade-anchor/programs/marinade-finance/src/stake_system/merge.rs:137-185 | a merge raises the stake recorded for a validator's accounts and the validator's balance alike |
| `MergeStakes.FirstsRepresentClasses` | marinade-anchor/cli/bot-cli/src/merge_stakes.rs:89-167 | with exactly the first of each class left, no two can be merged and no class is lost |
| `MergeStakes.ClassesAreAlike` | marinade-anchor/cli/bot-cli/src/merge_stakes.rs:41-134 | two stakes are of one class exactly if their delegations in the snapshot agree in voter, credits and kind |
| `MergeStakes.RemovedHaveEarlierAlike` | marinade-anchor/cli/bot-cli/src/merge_stakes.rs:89-167 | only stakes with an earlier one alike in the snapshot go, and all of them if none is passed over |
| `MergeStakes.Process` | marinade-anchor/cli/bot-cli/src/merge_stakes.rs:12-176 | whatever fails, all indices are right and only stakes with an earlier one like them in the snapshot go; if all land in time, exactly these are gone; per validator the recorded stake changes only by rent that its balance gains too; it fails exactly for a mergeable stake of an unknown validator |
| `StakeDelta.UnstakeOne` | marinade-anchor/cli/bot-cli/src/stake_delta.rs:322-413 | the inner loop; the sum deactivated plus what is left is always the capped target |
| `StakeDelta.UnstakeAll` | marinade-anchor/cli/bot-cli/src/stake_delta.rs:263-432 | the outer loop, with the delta read anew for every validator |
| `StakeDelta.StakeAll` | marinade-anchor/cli/bot-cli/src/stake_delta.rs:140-261 | the stake loop |
| `StakeDelta.StakesByScore` | marinade-anchor/cli/bot-cli/src/stake_delta.rs:149-261 | every transaction stakes to an eligible validator the smaller of what it lacks and what is left; everyone eligible with a higher score has been staked to before |
| `StakeDelta.NobodyIsLeftOut` | marinade-anchor/cli/bot-cli/src/stake_delta.rs:152-261 | someone eligible all along is only left out if the crank has stopped, at the limit or for lack of a stake delta |
| `StakeDelta.Process` | marinade-anchor/cli/bot-cli/src/stake_delta.rs:73-452 | the whole crank with its early exits, as the log of what is sent for which validator or stake and what is counted; true exactly if no transaction was reported as failed |
| `StakeDelta.WithinTarget` | marinade-anchor/cli/bot-cli/src/stake_delta.rs:322-413 | from one validator never more is counted than its target |
| `StakeDelta.AsMuchAsPossible` | marinade-anchor/cli/bot-cli/src/stake_delta.rs:322-413 | the count is the target, or all that successful transactions could reach within the limit |
| `StakeDelta.CountsNoMoreThanNeeded` | marinade-anchor/cli/bot-cli/src/stake_delta.rs:94-452 | for any pattern of failures the count is at most the initial shortfall (or surplus) plus what transactions were counted for and did not do |
| `StakeDelta.CountsNoMoreThanTargets` | marinade-anchor/cli/bot-cli/src/stake_delta.rs:140-432 | nor does the count exceed what the validators of the list are off their targets, all together |
| `StakeDelta.CoveredNeverCountsMore` | marinade-anchor/cli/bot-cli/src/stake_delta.rs:263-432 | if the large surpluses together are no more than the shortfall, or there is only one, no more than the shortfall is counted, for any stakes, limit and course of events |
| `StakeDelta.NeverCountsMoreIff` | marinade-anchor/cli/bot-cli/src/stake_delta.rs:263-432 | and only then, for a list that holds each validator once |
| `StakeDelta.SmallestFirst` | marinade-anchor/cli/bot-cli/src/stake_delta.rs:322-337 | the stakes tried for a validator are exactly its own active ones, the one with the smallest delegated stake first |
| `StakeDelta.UnstakesBySurplus` | marinade-anchor/cli/bot-cli/src/stake_delta.rs:268-413 | every transaction unstakes from a validator with too much, from one of its own active stakes; everyone with a larger surplus and a stake to take from has been unstaked from before |
| `StakeDelta.NoSurplusIsLeft` | marinade-anchor/cli/bot-cli/src/stake_delta.rs:263-432 | a validator with too much and a stake to take from is only left out if the crank has stopped |
| `StakeDelta.CountedButNotDone` | marinade-anchor/cli/bot-cli/src/stake_delta.rs:366-387 | a course of events in which more than the shortfall is counted |
| `DeactivateStake.Marinade.Process` | marinade-anchor/programs/marinade-finance/src/stake_system/deactivate_stake.rs:21-367 | one deactivation, with its checks in order, the whole stake or a split, and all balances |
| `DeactivateStake.SucceedsIff` | marinade-anchor/programs/marinade-finance/src/stake_system/deactivate_stake.rs:21-212 | the exact conditions, on the accounts, the window, the shortfall and the stake, under which a deactivation is accepted |
| `DeactivateStake.WhatChanges` | marinade-anchor/programs/marinade-finance/src/stake_system/deactivate_stake.rs:128-367 | what a deactivation with an effect leaves in records, accounts and balances, for a whole stake and for a split |
| `DeactivateStake.DeltaCountsEmergency` | marinade-anchor/programs/marinade-finance/src/state.rs:236-256 | the shortfall counts what cools down for an emergency, and that never turns it into a surplus |
| `DeactivateStake.TargetsShareTheTotal` | marinade-anchor/programs/marinade-finance/src/validator_system.rs:236-249 | the targets of all validators together are the total, but for less than a lamport for each |
| `DeactivateStake.NoEffectIff` | marinade-anchor/programs/marinade-finance/src/stake_system/deactivate_stake.rs:115-212 | success without effect means that nothing is wanted, or that the validator has had its split in this epoch |
| `DeactivateStake.EstimateIsLow` | marinade-anchor/programs/marinade-finance/src/stake_system/deactivate_stake.rs:128-334 | what has an effect moves at least the client's estimate for the same amount, and less than twice the minimum stake more |
| `DeactivateStake.ExceedsEstimateIff` | marinade-anchor/programs/marinade-finance/src/stake_system/deactivate_stake.rs:128-194 | more than the estimate is moved exactly if the stake holds more than is wanted, but less than twice the minimum more |
| `DeactivateStake.ExceedsShortfallIff` | marinade-anchor/programs/marinade-finance/src/stake_system/deactivate_stake.rs:128-194 | more than the shortfall is moved exactly by a call that wants something of a stake with more than the shortfall, of which less than twice the minimum would be left |
| `DeactivateStake.MovesLittleBeyondShortfall` | marinade-anchor/programs/marinade-finance/src/stake_system/deactivate_stake.rs:69-351 | over any run of deactivations the shortfall falls by what is moved, and less than twice the minimum stake is moved beyond it |
| `DeactivateStake.RunExceedsShortfallIff` | marinade-anchor/programs/marinade-finance/src/stake_system/deactivate_stake.rs:69-351 | a run moves more than the shortfall exactly if one of its calls does so in the state that it finds |
| `DeactivateStake.StaysInStep` | marinade-anchor/programs/marinade-finance/src/stake_system/deactivate_stake.rs:335-364 | over any run every validator's balance is what is recorded for its active stakes, no subtraction saturates, and what leaves the active total cools down |
| `DeactivateStake.WholeStakeGoes` | marinade-anchor/programs/marinade-finance/src/stake_system/deactivate_stake.rs:144-194 | a shortfall of 5 for which 6 are unstaked |
| `UndisturbedCrank.CrankIsRun` | marinade-anchor/cli/bot-cli/src/stake_delta.rs:263-432 | the crank against the answers of the chain is the crank of `StakeDelta` in the environment that they make |
| `UndisturbedCrank.ValidatorCovers` | marinade-anchor/cli/bot-cli/src/stake_delta.rs:322-413 | what is counted for a validator is covered by what is unstaked from it |
| `UndisturbedCrank.CountsNoMoreThanIsMoved` | marinade-anchor/cli/bot-cli/src/stake_delta.rs:73-432 | with nobody else at work and a minimum stake, no more is counted than is unstaked and than the shortfall, for any losses, limit and stop; less than twice the minimum stake is unstaked beyond it |
| `UndisturbedCrank.NetworkIsUndisturbed` | marinade-anchor/cli/bot-cli/src/stake_delta.rs:360-395 | transactions and reports may be lost in any pattern |
| `UndisturbedCrank.StaysWithinIff` | marinade-anchor/cli/bot-cli/src/stake_delta.rs:263-432 | the count stays within the shortfall exactly for a minimum stake that is not zero |
| `SendAndConfirm.QueryStatuses` | stake-o-matic/bot/src/rpc_client_utils.rs:115-133 | asking in chunks gives the status of each, and fails exactly if some chunk does |
| `SendAndConfirm.SendAndConfirmTransactions` | stake-o-matic/bot/src/rpc_client_utils.rs:33-169 | the code does what the protocol function says, for any script of answers, cut off at any round |
| `SendAndConfirm.EveryTransactionAccountedFor` | stake-o-matic/bot/src/rpc_client_utils.rs:56-169 | at every loop head each transaction is in exactly one of pending, succeeded and failed; what is pending carries the current blockhash and has been sent once for each blockhash so far, nothing more than five times, and exactly five times if the blockhash has expired too often; everything is sent once at the start, unless the opening queries fail or the fees exceed the balance, exactly with the error for that; a good end leaves none pending |
| `SendAndConfirm.VerdictsAreReported` | stake-o-matic/bot/src/rpc_client_utils.rs:135-163 | success and failure are only what the network reported for that very signature |
| `SendAndConfirm.PassAsPromised` | stake-o-matic/bot/src/rpc_client_utils.rs:81-163 | exactly when one pass fails and how; otherwise every pending transaction, sent again under the new blockhash if the old one has expired, stays pending exactly if its status is not committed, and is otherwise added to the succeeded or the failed ones, as reported |
| `SendAndConfirm.ReportedVerdictsCount` | stake-o-matic/bot/src/rpc_client_utils.rs:135-163 | a transaction whose current signature was reported as committed in a completed pass is in succeeded or failed at the end of the run, as it was reported |
| `SendAndConfirm.VerdictsStay` | stake-o-matic/bot/src/rpc_client_utils.rs:135-163 | no verdict is ever taken back |
| `SendAndConfirm.DryRunSendsNothing` | stake-o-matic/bot/src/rpc_client_utils.rs:58-71 | a dry run sends nothing and cannot tell its transactions apart; one pass completes it |
| `Shares.ProportionalRoundsDown` | marinade-anchor/programs/marinade-finance/src/calc.rs:10-16 | the exact quotient rounded down, with an error exactly if it does not fit |
| `Shares.SharesForValue` | marinade-anchor/programs/marinade-finance/src/calc.rs:33-38 | shares are as many as the value pays for at the price before, one more would be too many; all of the value if there are none or they are worth nothing; an error exactly if they do not fit |
| `Shares.ValueForShares` | marinade-anchor/programs/marinade-finance/src/calc.rs:18-27 | what is paid is what the shares are worth, short of less than one unit; an error exactly if it does not fit |
| `Shares.RoundTripGivesNoMore` | marinade-anchor/programs/marinade-finance/src/calc.rs:18-38 | value to shares and back never gives more, for all inputs, and less only by the value of one share and one unit |
| `Shares.LiqPool.AddLiquidity` | marinade-anchor/programs/marinade-finance/src/liq_pool/add_liquidity.rs:40-127 | minimum deposit, liquidity cap and supply are checked; shares are computed from both legs before the deposit is added, and what they are worth falls short of the deposit by less than one share; the whole new state |
| `Shares.LiqPool.RemoveLiquidity` | marinade-anchor/programs/marinade-finance/src/liq_pool/remove_liquidity.rs:66-185 | the virtual supply is aligned with the real one, and each leg is paid in proportion, less than a lamport short of its exact part, if the minimum is reached; the whole new state |
| `Shares.AdditionSucceedsIff` | marinade-anchor/programs/marinade-finance/src/liq_pool/add_liquidity.rs:40-127 | an addition succeeds exactly within the limits, into a pool for which nobody else has minted shares, and then adds the deposit and a fair number of shares |
| `Shares.RemovalSucceedsIff` | marinade-anchor/programs/marinade-finance/src/liq_pool/remove_liquidity.rs:66-185 | a removal succeeds exactly if the holder has the shares, the legs hold the payouts and these reach the minimum; what is left after it |
| `Shares.OperationsAreFair` | marinade-anchor/programs/marinade-finance/src/calc.rs:18-38 | every deposit mints and every withdrawal pays a fair amount, on both sides within one unit of the exact one, and a withdrawal of existing shares never fails |
| `Shares.NobodyElseMints` | marinade-anchor/programs/marinade-finance/src/liq_pool/add_liquidity.rs:63-67 | over every run the real supply of shares never exceeds the virtual one |
| `Shares.LegsPerShareNeverDecrease` | marinade-anchor/programs/marinade-finance/src/liq_pool/remove_liquidity.rs:84-182 | over every run of withdrawals and burns, at any prices, lamports per share and mSOL per share never decrease, each on its own |
| `Shares.AdditionKeepsWorth` | marinade-anchor/programs/marinade-finance/src/liq_pool/add_liquidity.rs:68-98 | an addition never lowers the value of a share |
| `Shares.OperationLowersLittle` | marinade-anchor/programs/marinade-finance/src/liq_pool/remove_liquidity.rs:84-182 | no addition and no burn lowers what a share is worth, and a removal lowers it by no more than a lamport of the pool |
| `Shares.WorthFallsOnlyByRounding` | marinade-anchor/programs/marinade-finance/src/liq_pool/remove_liquidity.rs:84-182 | over every mixed run at a constant price a share loses no more than one lamport of the pool per removal |
| `Shares.RemovalCanLowerWorth` | marinade-anchor/programs/marinade-finance/src/liq_pool/remove_liquidity.rs:102-117 | a removal that lowers it |
| `Shares.ValuePerShareNeverDecreases` | marinade-anchor/programs/marinade-finance/src/liq_pool.rs:88-97 | for one kind of value, over every run of deposits and withdrawals while there are shares |
| `Shares.DepositAndWithdraw` | marinade-anchor/programs/marinade-finance/src/calc.rs:18-38 | depositing and withdrawing at once gives a gain exactly if the pool held value without shares; the loss stays below the value of one share and one lamport |
| `ScoreApportionment.Apportion` | marinade-anchor/cli/score-post-process/src/process_scores.rs:476-495 | the array is sorted, stably, and every entry gets its own part of the target and of the percentages, and its rank; division by zero exactly without scores |
| `ScoreApportionment.SumOfShares` | marinade-anchor/cli/score-post-process/src/process_scores.rs:484-494 | a sum of rounded shares is at most the exact share of the sum and less than one per entry below it |
| `ScoreApportionment.ApportionmentIsFair` | marinade-anchor/cli/score-post-process/src/process_scores.rs:476-495 | target and percentages are handed out but for less than one unit per validator; ranks from one; who ranks higher gets no less |
| `ScoreApportionment.EachGetsItsPart` | marinade-anchor/cli/score-post-process/src/process_scores.rs:484-494 | every single entry gets its exact part of the target and of a hundred percent, rounded down by less than one unit; no score is changed or lost |
| `Registry.ParticipantRoundTrip` | stake-o-matic/program/src/state.rs:38-54 | unpacking what was packed, whatever follows it |
| `Registry.ParticipantIsCanonical` | stake-o-matic/program/src/state.rs:38-54 | packing what was unpacked |
| `Registry.InstructionRoundTrip` | stake-o-matic/program/src/instruction.rs:62-82 | the same for instructions |
| `Registry.InstructionIsCanonical` | stake-o-matic/program/src/instruction.rs:62-82 | every instruction has one encoding |
| `Registry.WireFormat` | stake-o-matic/program/src/state.rs:11-54 | the place of every field in the bytes of a participant, and the tags of states and instructions |
| `Registry.ProcessInstruction` | stake-o-matic/program/src/processor.rs:44-122 | the processor refines the state machine on the account buffer, with every error in its order; lamports move only on a withdrawal and are conserved if the refundee is another account |
| `Registry.IdentitiesDiffer` | stake-o-matic/program/src/processor.rs:114-121 | in every reachable state but the first the identities differ, and the rest of the buffer is never touched |
| `Registry.ZeroedAccount` | stake-o-matic/program/src/state.rs:11-33 | a zeroed account is an uninitialized participant |
| `Registry.WithoutAdmin` | stake-o-matic/program/src/processor.rs:33-112 | without the admin's signature only an application changes the account, signed by both identities |
| `Registry.AppliedIsFrozen` | stake-o-matic/program/src/processor.rs:44-122 | over any run without the admin's signature a participation that was applied for does not change |
| `Registry.EnrolmentNeedsAdmin` | stake-o-matic/program/src/processor.rs:44-122 | no such run gets beyond pending |
| `Registry.ApplySucceeds` | stake-o-matic/program/src/processor.rs:54-77 | an application succeeds exactly from uninitialized, signed by two different identities, and stores both in their order as pending |
| `Registry.RewriteSucceeds` | stake-o-matic/program/src/processor.rs:108-112 | the admin can rewrite a readable account to any participant with different identities, which is stored as given |
| `Registry.AdminRefusals` | stake-o-matic/program/src/processor.rs:33-42 | why an instruction for the admin is refused, with every error |
| `Registry.IdentityRefusals` | stake-o-matic/program/src/processor.rs:54-97 | why an application or a withdrawal is refused, with the errors in their order |
| `Registry.ApproveSucceeds` | stake-o-matic/program/src/processor.rs:98-102 | an approval succeeds exactly with the admin's signature on a readable account whose identities differ, in any state |
| `Registry.RejectSucceeds` | stake-o-matic/program/src/processor.rs:103-107 | a rejection likewise |
| `Registry.WithdrawSucceeds` | stake-o-matic/program/src/processor.rs:78-97 | a withdrawal succeeds exactly with the signature of one of the two identities, if they differ, in any state |
| `Registry.StateIsNotChecked` | stake-o-matic/program/src/processor.rs:78-107 | a rejected participant is approved, and withdraws |

## Left out

- RPC, HTTP, databases, files, command lines, logging, sleeping and clocks: queries read the model's state, failed queries are errors or are left out, and a time limit stops a loop at an arbitrary point.
- Signatures and address derivation: derived addresses are taken to be injective, transactions to be distinct, and a public key to be its identity (32 bytes in the registry).
- The stake program and the parts of the Marinade program that the clients call are taken as simple steps with the checks and effects stated in the model. In `StakeDelta` a deactivation is only known by what the client is told and the delta it reads afterwards; `DeactivateStake` models it on its own, and `UndisturbedCrank` puts both together for unstaking.
- A transaction is taken to land, if at all, before the next one is sent; one that lands late, after the client has gone on, is not modelled, and neither are other clients that change the lists or the ledger in between.
- Rent of stake accounts in the v0 pool, rewards and fees: the ledger of the v0 pool is closed.
- Arithmetic on 64-bit integers is unbounded here, except where the width matters to a property: the wrapping subtraction of the v0 pool, the counters of the data centers, the checked and saturating operations on shares, and the 32-bit scores.
- Floating point: scores, percentages of data centers, annual yields, and the conversion of lamports to SOL.
- `StakePoolBonus.Rebalance`: adding and removing pool validators and the other phases of `stake_pool.rs` before the targets are not modelled; the validator list and the busy set are inputs.
- `StakePoolV0.StakePool.Apply`: the texts of the notes and actions are reduced to the decision they report. As in the source, a dry run still merges and creates accounts; only the distribution is skipped.
- `BlockProducers.ClassifyProducers`: the fetching of confirmed blocks and of the leader schedule, and the texts of the reasons.
- `MergeStakes.Process`: the delegations of the snapshot are inputs; the claim that they agree with the chain at the time of the snapshot is not part of the model.
- `StakeDelta.Process`: the stake targets of validators are computed on chain and enter as each validator's delta.
- `SendAndConfirm.EveryTransactionAccountedFor`: it does not say that a transaction has at most one effect; a resent transaction can land under an earlier signature.
- `Shares.ValuePerShareNeverDecreases`: one kind of value; for the two legs of the liquidity pool see `LegsPerShareNeverDecrease` and `WorthFallsOnlyByRounding`. A run with additions while the price of mSOL changes is not covered, since a change of the price is itself a gain or a loss.
- `Shares.LiqPool.AddLiquidity`: the balance of the account that pays; the transfer is taken to succeed.
- `Shares.LiqPool.RemoveLiquidity`: the balances and delegations of the holder's token accounts; the transfers are taken to succeed if the legs hold the amounts.
- `UpdatePrice.StakeSystem.UpdateActive`: the validator index and the balances of the state that the update changes; only the record and whether the index names the account matter to the client.
- `MergeStakes.StakeSystem.Merge`: the check of the source account's lamports and the total active balance.
- `DeactivateStake.Marinade.Process`: the addresses of the accounts other than the stake account and the split account, rent of the split account, and the limit on the length of the stake list; whether it is late enough in the epoch is an input.
- The ordering of the allocator as a way to fund as many accounts as possible, which a comment in `stake_pool.rs` claims: within one level a smaller balance is a larger need, and only the shape of the funding is proved.
- `staked_for`, `score`, `linear_fee` and `delta`: short pure functions with simple bounds.
- The health rules, the blacklist and the earlier passes of the score post-processing, and the score updates of the validator manager.
- Configuration, address checks, authorities other than the registry's admin and the validator manager, and the JavaScript and TypeScript parts.
