# Assets pallet balance engine, with its freeze hook

This project models the balance-transition engine of the multi-asset
fungible ledger in `frame/assets/src/lib.rs` and the freeze hook in
`frame/assets-freezer/src/lib.rs`, and proves properties of the model.

**Storage.** The pallet's storage is the value `AssetTypes.State`. It has
four parts:
- the `Asset` map, from asset id to `AssetDetails`;
- the `Account` map, from (asset, holder) to `AssetBalance`; an absent entry
  reads as the default record with balance zero;
- the `Approvals` map, from (asset, owner, delegate) to `Approval`;
- the system pallet's consumer and self-sufficient reference counters,
  counting only the references that this pallet places.

**Balances and counters.** `Balance` is a natural number bounded by
2^128 - 1, so every `checked_*` and `saturating_*` operation of the Rust code
is exact. The `accounts`, `sufficients` and `approvals` counters are
32-bit.

**Env.** The outside world is one value, `Env`:
- the freeze hook's `frozen_balance` query;
- `providers(who)`;
- whether `inc_consumers` succeeds;
- whether the currency can reserve an approval deposit.

**Hook calls.** The melt and death notifications to the freeze hook
(`melted`, `died`) come back from each operation as a sequence of
`HookCall`s, in the order the Rust code makes them.

The model has three layers:

- **Pure checks and transitions.** The checks are in `Checks`:
  `can_increase`, `can_decrease`, `decreasable_balance`, `prep_debit` and
  `prep_credit`. The operations are functions on `State` in `Ledger`:
  `new_account`, `dead_account`, `increase_balance`/`do_mint`,
  `decrease_balance`/`do_burn`, `do_transfer`, the approvals, `destroy` and
  the four freeze operations. Each returns the new storage, or the error with
  which the Rust code's transactional `try_mutate` leaves the storage as it was.
- **Proofs.** They live in `CheckProperties`, `Properties`, `AdminProperties`
  and `Findings`. The storage invariant is `Invariants.Valid`:
  - every asset has a positive minimum balance;
  - `supply`, `accounts` and `sufficients` are the sums over the asset's
    balance records;
  - every record belongs to a live asset and holds at least the minimum;
  - each holder's reference counters equal the references its records carry.

  Every storage-changing operation is proved to keep `Valid`.
- **Classes.** `AssetsPallet.Pallet` holds the storage maps as fields. Its
  methods update them step by step in the order the Rust code does, and
  each method's postcondition ties the new fields to the corresponding
  `Ledger` function. The loop of `destroy` over `drain_prefix` is a `while`
  loop with its invariant (`AssetsPallet.Draining`). `Freezer.Pallet` holds
  the freezer's `FreezeData` store. Its `Melted` method changes the store in
  place, and `Notify` applies the engine's hook calls one by one.

Where the code and its documentation disagree, the model follows the code,
with one exception, the finding below:
- The `burn` call is documented to bail with `BalanceZero` when the target
  has no balance (`frame/assets/src/lib.rs:671`). The code does not check
  this: a best-effort burn of such a target succeeds and burns nothing, and
  no path of `do_burn` returns `BalanceZero`. The code as written also runs
  `dead_account` for that target (`frame/assets/src/lib.rs:1829-1831`),
  which the pure model keeps as `Ledger.DecreaseBalanceAsWritten` and
  `Ledger.DoBurnAsWritten`. The rest of the model, the class included, uses
  the corrected `Ledger.DecreaseBalance`, which skips `dead_account` for a
  target that had no record and so returns `Ok(0)` with the storage
  unchanged. It keeps `Ok(0)` rather than `BalanceZero` because the same
  `decrease_balance` serves the best-effort `slash` and
  `decrease_balance_at_most`, which report the amount actually taken, and
  0 is the right report for an empty holder there.
- `approve_transfer` does not increment the asset's `approvals` counter. It
  does not check that the asset exists. An approval of zero is stored.
- `destroy` does not require the asset to be empty. It drains every balance
  record, releasing each holder's reference as it goes.
- `prep_debit` marks its refused branch as unreachable with a
  `debug_assert`. That branch is reachable: a capped amount is still refused
  in the cases `CheckProperties.Refused` lists, and `prep_debit` then returns
  the error.

## Model

| member | source | states |
|---|---|---|
| Checks.CanIncrease | frame/assets/src/lib.rs:1524-1549 | each deposit consequence holds exactly under its condition, in the Rust code's order: `UnknownAsset` iff the asset is missing; `Success` iff supply and balance do not overflow and a fresh account meets the minimum and can be created; `BelowMinimum` and `CannotCreate` each iff their check is the first to fail |
| Checks.CanDecrease | frame/assets/src/lib.rs:1553-1607 | every withdrawal consequence holds exactly when the checks before it pass and its own fails, in the Rust code's order: `UnknownAsset`, `Underflow`, `Frozen` (asset, account, or a respected freeze that the rest would break), `NoFunds`, `Overflow` (frozen amount plus minimum), `WouldDie` (keep-alive and dust), `ReducedToZero` (dust without keep-alive, carrying the remainder) and `Success`; an accepted withdrawal is within funds and supply and never breaks a respected freeze; a melt argument is reported only for an accepted withdrawal that breaks an ignored freeze, with value `rest ⊖ min` |
| Checks.DecreasableBalance | frame/assets/src/lib.rs:1611-1646 | fails `Unknown` iff the asset is missing, `Frozen` iff the asset or the account is frozen, and `Overflow` iff a respected frozen amount plus the minimum overflows; otherwise yields `balance ⊖ (frozen + min)`, `balance ⊖ min` under keep-alive, or the balance, each capped by the supply |
| Checks.MeltCheck | frame/assets/src/lib.rs:1574-1590 | fails `Overflow` iff a freeze plus the minimum overflows, fails `Frozen` iff a respected freeze would be broken, and otherwise yields a melt argument iff an ignored freeze is broken, with value `rest ⊖ min` |
| Checks.PrepDebit | frame/assets/src/lib.rs:1663-1684 | a successful debit is at most the balance and at least the request unless best effort; it exceeds the request by less than the minimum; it leaves nothing or at least the minimum, and at least the minimum under keep-alive; it never cuts into a respected freeze; a melt argument appears only when freezes are ignored |
| Checks.PrepCredit | frame/assets/src/lib.rs:1701-1714 | succeeds iff `can_increase` admits the credit; with `burn_dust` and a debit of at least the amount, credits the amount and burns the excess, otherwise credits the whole debit; credit plus burn equals the debit |
| CheckProperties.AcceptedWithinDecreasable | frame/assets/src/lib.rs:1609-1646 | every amount `can_decrease` accepts is at most `decreasable_balance`, which is then defined |
| CheckProperties.DecreasableAccepted | frame/assets/src/lib.rs:1609-1646 | an amount within `decreasable_balance` is accepted by `can_decrease` iff it is not one of the corner cases in `Refused`: an ignored freeze whose amount plus the minimum overflows, or a zero amount from a holder already below a respected freeze or, under keep-alive, below the minimum |
| CheckProperties.PrepDebitOk | frame/assets/src/lib.rs:1663-1684 | `prep_debit` succeeds iff the cap exists, covers the request unless best effort, and the capped request is not refused; the debit is then the capped request plus any dust, with the melt argument of `can_decrease` |
| CheckProperties.FrozenCannotWithdraw | frame/assets/src/lib.rs:1611-1624 | on a frozen asset or a frozen account, `can_decrease` refuses, `decreasable_balance` fails `Frozen` and `prep_debit` fails `Frozen` |
| Ledger.NewAccount | frame/assets/src/lib.rs:1491-1506 | fails `Overflow` iff the account counter is full, and `NoProvider` iff a consumer reference cannot be placed for a non-sufficient asset; on success counts the account, and places a self-sufficient reference (bumping `sufficients`) or a consumer reference according to the asset's kind, returning which |
| Ledger.DeadAccount | frame/assets/src/lib.rs:1508-1522 | decrements `accounts` (saturating), decrements `sufficients` and the self-sufficient reference iff the record was sufficient and otherwise the consumer reference, changes nothing else in the asset record, and notifies `died` |
| Ledger.IncreaseBalance | frame/assets/src/lib.rs:1734-1760 | a zero amount changes nothing; a refusal of `can_increase` is reported as its token error; after it, a failed issuer check gives `NoPermission`, and creating the holder's account gives `Overflow` on a full counter and `NoProvider` when no consumer reference can be placed; it succeeds iff none of these fails and the new balance reaches the minimum; on success the beneficiary's balance rises by the amount, only its record and asset `id` change, a mint raises the supply by the amount, and a previously empty holder becomes a counted account carrying the asset's kind of reference |
| Ledger.ApplyIncreaseCheck | frame/assets/src/lib.rs:1722-1728 | the mint closure fails, with `NoPermission`, iff an issuer is demanded and it is not the asset's; otherwise only the supply changes, raised by the amount for a mint |
| Ledger.DoMint | frame/assets/src/lib.rs:1716-1732 | once `can_increase` admits the deposit, a wrong issuer gives `NoPermission`; a successful mint of a positive amount was made by the issuer or unchecked, and raises the supply and the beneficiary's balance by the amount |
| Ledger.CreditAccount | frame/assets/src/lib.rs:1748-1756 | on success the credited record's balance is the old balance plus the credit (saturating), only that record and the asset record change, and the stored minimum is that of the record handed in |
| Ledger.DebitAccount | frame/assets/src/lib.rs:1823-1837 | the debited holder's record survives iff what is left reaches the minimum, and it then holds exactly the old balance less the debit; `died` is sent exactly when the record goes, except, under the guard, for a holder that had no record; without `died` no reference changes; no other record and no other asset changes |
| Ledger.DecreaseBalanceWith | frame/assets/src/lib.rs:1801-1847 | a zero amount changes nothing; a failing `prep_debit` is reported unchanged, and a failing admin check after it as `NoPermission`; it succeeds iff the amount is zero or neither fails; on success the amount reported is the prepared debit, the target's balance falls by it, a burn lowers the supply by it, no other record or asset changes, and the record survives iff what is left reaches the minimum |
| Ledger.ApplyDecreaseCheck | frame/assets/src/lib.rs:1779-1789 | the burn closure fails, with `NoPermission`, iff an admin is demanded and it is not the asset's; otherwise only the supply changes, lowered by the debit for a burn |
| Ledger.DecreaseBalanceAsWritten | frame/assets/src/lib.rs:1801-1847 | `decrease_balance` as written: whenever the target ends without a record, `died` is sent for it first, whether or not it had a record |
| Ledger.DecreaseBalance | frame/assets/src/lib.rs:1801-1847 | the corrected `decrease_balance`: a target that had no record keeps the storage's records and references, and no `died` is sent for it; a target whose record goes is reported dead first |
| Ledger.DoBurnAsWritten | frame/assets/src/lib.rs:1763-1793 | `do_burn` as written: whenever the target ends without a record, `died` is sent for it first |
| Ledger.DoBurn | frame/assets/src/lib.rs:1763-1793 | `do_burn` on the corrected `decrease_balance`: once `prep_debit` succeeds a wrong admin gives `NoPermission`; a successful burn of a positive amount was made by the admin or unchecked, lowers the target's balance by the amount reported and, when that balance was within the supply, the supply by the same |
| Ledger.DoTransfer | frame/assets/src/lib.rs:1854-1935 | a zero amount changes nothing; a failing `prep_debit` or `prep_credit` is reported unchanged; after them a failed admin check gives `NoPermission`, and otherwise a transfer to oneself succeeds; on success the amount credited is at least the request unless best effort and at most the request when dust is burned; a transfer to oneself changes no storage, and no transfer changes the approvals |
| Ledger.SettledTransfer | frame/assets/src/lib.rs:1876-1931 | the part of `do_transfer` after `prep_debit` and `prep_credit`: fails `Unknown` without the asset and `NoPermission` on a wrong admin, and otherwise a transfer to oneself returns the credit with only the melt notification; any success reports the credit and leaves the approvals |
| Ledger.MoveFunds | frame/assets/src/lib.rs:1898-1923 | the storage writes of a transfer between distinct holders succeed iff the destination's credit does, and leave the approvals alone |
| Ledger.ApproveTransfer | frame/assets/src/lib.rs:1223-1233 | fails with the currency's error iff the held deposit is below the required one and the difference cannot be reserved; on success the approved amount is the old one plus `amount` (saturating) and the deposit is at least the required one |
| Ledger.CancelApproval | frame/assets/src/lib.rs:1253-1265 | fails `Unknown` iff there is no approval; otherwise removes exactly that approval and nothing else |
| Ledger.TransferApproved | frame/assets/src/lib.rs:1327-1354 | fails `Unapproved` when there is no approval or the amount exceeds it; otherwise fails with the error of the owner's own transfer when that fails; on success the balances, assets, references and hook calls are exactly those of the owner's own transfer, no other approval changed, and the approval is removed when used up, otherwise reduced by exactly the amount |
| Ledger.CheckWitness | frame/assets/src/lib.rs:620-622 | succeeds iff the claimed witness equals the asset's `accounts`, `sufficients` and `approvals` counters; otherwise fails `BadWitness` |
| Ledger.Destroyed | frame/assets/src/lib.rs:624-633 | after destroy, the asset, all its balance records and all its approvals are gone, and every record of another asset is kept |
| Ledger.Destroy | frame/assets/src/lib.rs:606-639 | fails iff the asset is missing, a signed caller is not the owner, or the witness is wrong, with `Unknown` and `NoPermission` taking precedence in that order; on success yields the destroyed storage, with no hook calls: the `died` notifications of the drain are those of `AssetsPallet.Pallet.Destroy` |
| Ledger.Freeze | frame/assets/src/lib.rs:804-820 | succeeds iff the asset exists, the caller is its freezer and the holder has a record; then only that record changes, and it is frozen |
| Ledger.Thaw | frame/assets/src/lib.rs:833-850 | succeeds iff the asset exists, the caller is its admin and the holder has a record; then only that record changes, and it is not frozen |
| Ledger.SetAccountFrozen | frame/assets/src/lib.rs:804-820 | fails `Unknown`, then `NoPermission` unless the caller is the freezer (to freeze) or the admin (to thaw), then `BalanceZero` when the holder has no record; on success sets only that record's frozen flag |
| Ledger.SetAssetFrozen | frame/assets/src/lib.rs:862-877 | fails iff the asset is missing (`Unknown`) or the caller lacks the role (`NoPermission`); on success sets only the asset's frozen flag |
| Ledger.FreezeAsset | frame/assets/src/lib.rs:862-877 | succeeds iff the asset exists and the caller is its freezer; then only that asset record changes, and it is frozen |
| Ledger.ThawAsset | frame/assets/src/lib.rs:889-904 | succeeds iff the asset exists and the caller is its admin; then only that asset record changes, and it is not frozen |
| Properties.NewThenDeadRestores | frame/assets/src/lib.rs:1491-1522 | `dead_account` after `new_account` for the same holder restores the asset record and every reference count |
| Properties.CreditKeepsValid | frame/assets/src/lib.rs:1748-1756 | a credit admitted by `can_increase`, stored with the supply raised by the credit, keeps the invariant |
| Properties.DebitKeepsValid | frame/assets/src/lib.rs:1823-1837 | a debit that leaves nothing or at least the minimum, stored with the supply lowered by the debit, keeps the invariant when the holder had a record or the unregistration is guarded |
| Properties.DeadKeepsValid | frame/assets/src/lib.rs:1829-1832 | removing an emptied record through `dead_account` keeps the invariant |
| Properties.MintKeepsValid | frame/assets/src/lib.rs:1716-1732 | minting keeps the invariant; supply and the beneficiary's balance both rise by the amount, and no other record changes |
| Properties.BurnKeepsValid | frame/assets/src/lib.rs:1763-1793 | burning with the corrected `decrease_balance` keeps the invariant; supply and the target's balance both fall by the amount reported, and no other record changes |
| Properties.TransferKeepsValid | frame/assets/src/lib.rs:1854-1935 | a transfer keeps the invariant when the debit is exact or the source account holds a record |
| Properties.TransferMovesFunds | frame/assets/src/lib.rs:1854-1935 | between distinct holders: the destination gains exactly the amount reported, the source account loses at least that, the supply falls by the difference (the burned dust) alone, and no other record changes |
| Properties.TransferShape | frame/assets/src/lib.rs:1871-1926 | a successful transfer between distinct holders is the two storage writes on the debit and credit that `prep_debit` and `prep_credit` settle on, with the supply first lowered by the burned dust, and reports the credit |
| Properties.SettledShape | frame/assets/src/lib.rs:1891-1923 | a settled transfer between distinct holders is the two storage writes with the supply first lowered by the burned dust |
| Properties.MoveFundsMoves | frame/assets/src/lib.rs:1898-1923 | the two writes of a transfer set the destination's balance to the old one plus the credit, set the source account's to the old one less the debit, store the supply handed in, and touch no other record |
| Properties.MoveFundsKeepsValid | frame/assets/src/lib.rs:1891-1923 | the two writes of a transfer keep the invariant when the debit is within the source account's record, leaves nothing or at least the minimum, and the credit is admitted |
| AdminProperties.FreezeKeepsValid | frame/assets/src/lib.rs:804-820 | setting a record's frozen flag keeps the invariant |
| AdminProperties.FreezeAssetKeepsValid | frame/assets/src/lib.rs:862-877 | setting an asset's frozen flag keeps the invariant |
| AdminProperties.ThawUndoesFreeze | frame/assets/src/lib.rs:833-850 | thawing, by the admin, a record that was not frozen and that the freezer has just frozen restores the storage |
| AdminProperties.ThawAssetUndoesFreezeAsset | frame/assets/src/lib.rs:889-904 | freezing an unfrozen asset by its freezer succeeds, and thawing it by its admin restores the storage |
| AdminProperties.FreezeBlocksDebit | frame/assets/src/lib.rs:1618-1622 | after a successful `freeze` or `freeze_asset`, every `prep_debit` from that holder fails `Frozen` |
| AdminProperties.ApproveKeepsValid | frame/assets/src/lib.rs:1213-1237 | an approval keeps the invariant |
| AdminProperties.CancelKeepsValid | frame/assets/src/lib.rs:1253-1266 | cancelling an approval keeps the invariant |
| AdminProperties.ApprovalsAccumulate | frame/assets/src/lib.rs:1223-1233 | a second approval for the same pair always succeeds and the approved amounts add up (saturating), since the deposit is already held |
| AdminProperties.CancelAfterApprove | frame/assets/src/lib.rs:1253-1265 | cancelling an approval just made removes exactly that approval and leaves everything else as it was before the approval |
| AdminProperties.SpendApproval | frame/assets/src/lib.rs:1339-1352 | after a fresh approval of `a`, a successful delegated transfer of `b` has `b <= a`, leaves `a - b` approved, and removes the approval when `b == a` |
| AdminProperties.TransferApprovedKeepsValid | frame/assets/src/lib.rs:1327-1354 | a delegated transfer keeps the invariant |
| AdminProperties.WitnessCountsRecords | frame/assets/src/lib.rs:184-190 | under the invariant, an asset's witness counts exactly its balance records and its sufficient records, and a claimed witness passes iff it equals those counts and the approvals counter |
| AdminProperties.DestroyKeepsValid | frame/assets/src/lib.rs:624-633 | destroying an asset keeps the invariant: the other assets' sums are untouched, and each holder loses exactly the one reference its record held |
| AdminProperties.DestroyWithWitness | frame/assets/src/lib.rs:606-639 | with the asset's own witness, called by the owner or the privileged origin, `destroy` succeeds with the destroyed storage, which satisfies the invariant |
| AdminProperties.ReleaseCount | frame/assets/src/lib.rs:624-626 | releasing a set of holders lowers the counter of exactly those holders by one, saturating at zero, and leaves every other counter alone |
| Findings.EmptyDebit | frame/assets/src/lib.rs:1663-1684 | a best-effort debit from a holder with no record, in an unfrozen asset with no freeze on the holder, prepares a debit of 0 and no melt |
| Findings.DebitAbsent | frame/assets/src/lib.rs:1823-1837 | debiting nothing from a holder with no record: guarded, only the asset record is stored; unguarded, `dead_account` runs, lowering the account counter and the holder's reference, and `died` is sent |
| Findings.BurnAsWrittenBreaksValid | frame/assets/src/lib.rs:1801-1847 | as written, a best-effort burn of any positive amount from a holder with no record succeeds, burns 0, sends `died`, and leaves `accounts` one lower with every record still present, breaking the invariant |
| Findings.BurnGuardedLeavesStorage | frame/assets/src/lib.rs:1801-1847 | with the corrected `decrease_balance`, the same burn succeeds, burns 0, calls no hook and changes no storage |
| AssetsPallet.Pallet.constructor | frame/assets/src/lib.rs:355-388 | the three storage maps start empty, with no references, and empty storage satisfies the invariant |
| AssetsPallet.Pallet.NewAccount | frame/assets/src/lib.rs:1491-1506 | the result and the new reference counters are those of `Ledger.NewAccount`; every storage map is untouched |
| AssetsPallet.Pallet.DeadAccount | frame/assets/src/lib.rs:1508-1522 | the updated asset record, the new reference counters and the hook calls are those of `Ledger.DeadAccount`; every storage map is untouched |
| AssetsPallet.Pallet.Credit | frame/assets/src/lib.rs:1748-1756 | the result and new storage are those of `Ledger.CreditAccount`, and the storage is unchanged on failure |
| AssetsPallet.Pallet.Debit | frame/assets/src/lib.rs:1823-1837 | the new storage and hook calls are those of `Ledger.DebitAccount` |
| AssetsPallet.Pallet.IncreaseBalance | frame/assets/src/lib.rs:1734-1760 | the result and new storage are those of `Ledger.IncreaseBalance`; the storage is unchanged on failure |
| AssetsPallet.Pallet.DoMint | frame/assets/src/lib.rs:1716-1732 | as `Ledger.DoMint`, and the invariant is kept |
| AssetsPallet.Pallet.DecreaseBalance | frame/assets/src/lib.rs:1801-1847 | the corrected `decrease_balance`: the result, hook calls and new storage are those of `Ledger.DecreaseBalance`; the storage is unchanged on failure |
| AssetsPallet.Pallet.DoBurn | frame/assets/src/lib.rs:1763-1793 | `do_burn` on the corrected `decrease_balance`: as `Ledger.DoBurn`, and the invariant is kept |
| AssetsPallet.Pallet.DoTransfer | frame/assets/src/lib.rs:1854-1935 | as `Ledger.DoTransfer`; the invariant is kept when the debit is exact or the source account holds a record |
| AssetsPallet.Pallet.Transfer | frame/assets/src/lib.rs:1866-1931 | the checks and writes of `do_transfer`, with the result, hook calls and new storage of `Ledger.DoTransfer` |
| AssetsPallet.Pallet.MoveFunds | frame/assets/src/lib.rs:1898-1923 | the writes of a transfer between distinct holders, with the result, hook calls and new storage of `Ledger.MoveFunds` |
| AssetsPallet.Pallet.ApproveTransfer | frame/assets/src/lib.rs:1213-1237 | as `Ledger.ApproveTransfer`, and the invariant is kept |
| AssetsPallet.Pallet.CancelApproval | frame/assets/src/lib.rs:1253-1266 | as `Ledger.CancelApproval`, and the invariant is kept |
| AssetsPallet.Pallet.TransferApproved | frame/assets/src/lib.rs:1327-1354 | as `Ledger.TransferApproved`; the approval is left untouched when the inner transfer fails; the invariant is kept |
| AssetsPallet.Pallet.SetAccountFrozen | frame/assets/src/lib.rs:804-820 | as `Ledger.SetAccountFrozen`, and the invariant is kept |
| AssetsPallet.Pallet.Freeze | frame/assets/src/lib.rs:804-820 | as `Ledger.Freeze`, and the invariant is kept |
| AssetsPallet.Pallet.Thaw | frame/assets/src/lib.rs:833-850 | as `Ledger.Thaw`, and the invariant is kept |
| AssetsPallet.Pallet.SetAssetFrozen | frame/assets/src/lib.rs:862-877 | as `Ledger.SetAssetFrozen`, and the invariant is kept |
| AssetsPallet.Pallet.FreezeAsset | frame/assets/src/lib.rs:862-877 | as `Ledger.FreezeAsset`, and the invariant is kept |
| AssetsPallet.Pallet.ThawAsset | frame/assets/src/lib.rs:889-904 | as `Ledger.ThawAsset`, and the invariant is kept |
| AssetsPallet.Pallet.Destroy | frame/assets/src/lib.rs:606-639 | as `Ledger.Destroy`; on success one `died` is sent for each drained record and nothing else, and on failure none; the invariant is kept, and under it the drained counters are zero, as the Rust code's `debug_assert_eq!` expects |
| AssetsPallet.Pallet.Drain | frame/assets/src/lib.rs:624-628 | the loop removes exactly the asset's balance records, releases each holder's reference once, brings `accounts` and `sufficients` to zero when they matched the records, and sends one `died` per drained holder |
| Freezer.FrozenOf | frame/assets-freezer/src/lib.rs:131-134 | nothing is frozen iff nothing is reserved; otherwise the frozen amount is the reserved amount |
| Freezer.EnvOf | frame/assets-freezer/src/lib.rs:130-134 | with this pallet as the freeze hook, the engine's `frozen_balance` query is `FrozenOf` over the store |
| Freezer.MeltKeepsReserved | frame/assets-freezer/src/lib.rs:135-141 | a melt changes no entry's presence and no reserved amount, never lowers a melted amount, and touches only its own entry |
| Freezer.HooksKeepFrozen | frame/assets-freezer/src/lib.rs:130-145 | whatever hook calls the engine makes, every reserved amount and frozen balance stays as it was, and melted amounts only grow |
| Freezer.DeathsChangeNothing | frame/assets-freezer/src/lib.rs:142-144 | `died` notifications alone leave the store unchanged |
| Freezer.CanReserveExactly | frame/assets-freezer/src/lib.rs:180-183 | an amount can be reserved iff the asset and the record are live and unfrozen, the amount is within the funds and the supply, and what is left covers the minimum plus anything already frozen |
| Freezer.CanReserve | frame/assets-freezer/src/lib.rs:180-183 | a reservation admitted leaves the holder at least the minimum plus any freeze already in place, within its funds in a live asset |
| Freezer.MeltIn | frame/assets-freezer/src/lib.rs:135-141 | a melt keeps the store's keys, raises its own entry's melted amount by the amount (saturating) with the reserve unchanged, and leaves every other entry |
| Freezer.Pallet.FrozenBalance | frame/assets-freezer/src/lib.rs:131-134 | nothing is frozen iff the holder has no entry or reserves nothing; otherwise the frozen amount is the reserved amount |
| Freezer.Pallet.ReservedBalance | frame/assets-freezer/src/lib.rs:177-179 | the reserved amount is zero iff nothing is frozen, and a positive reserved amount is the frozen balance |
| Freezer.Pallet.Melted | frame/assets-freezer/src/lib.rs:135-141 | the store becomes `MeltIn` of the old one, and every reserved amount is unchanged |
| Freezer.Pallet.Died | frame/assets-freezer/src/lib.rs:142-144 | the store is unchanged |
| Freezer.Pallet.Notify | frame/assets-freezer/src/lib.rs:135-144 | applying the engine's hook calls in order leaves the store at `AfterHooks` of the old one |

## Left out

- Events: no `deposit_event` call is modelled; they do not affect storage.
- Origin plumbing: `ensure_signed`, `ForceOrigin` and `T::Lookup` are not modelled. A caller is an account id. A privileged origin is `None` in the `maybe_check_*` parameters.
- The `Currency` economics: reserving an approval deposit is modelled only as the outcome `Env.canReserve`. The unreserves are not modelled: in `cancel_approval`, in a fully spent `transfer_approved`, and of the asset deposit and the metadata deposit in `destroy`. Metadata is not modelled.
- The system pallet is reduced to two things. The references that this pallet places are per-holder counters. `providers` and the success of `inc_consumers` are inputs.
- The `StoredMap` implementation and `ExtraMutator` are left out: the freezer's store is a map of its own in `Freezer.Pallet`. A `melted` call for a holder without an entry writes nothing, which is what the Rust code's failing `mutate` does. The `debug_assert!` the Rust code places there is not modelled.
- Weights, benchmarking, storage hashers and codecs are not modelled; none of them touches balances.
- The pass-through `fungibles` wrappers are not modelled, apart from the `can_withdraw` call that `can_reserve` makes.
- The extrinsics outside the core (`create`, `force_create`, `transfer_ownership`, `set_team`, `force_asset_status` and `force_cancel_approval`) are not modelled. The thin extrinsic wrappers around `do_mint`, `do_burn` and `do_transfer` are not modelled either, except for the parameters they pass.
- The transactional rollback of `try_mutate`: each `Pallet` method runs its checks before its first write, so a failure leaves the storage as it was. The order of the writes within one successful call is the reason the methods exist.
- Properties.TransferKeepsValid: it requires the debit to be exact or the source account to hold a record. This is because `do_transfer`, like `decrease_balance`, runs `dead_account` for a source with no record when a best-effort debit is 0. All callers in `pallet-assets` pass `best_effort = false`, so this case does not arise there.
- AssetsPallet.Pallet.DecreaseBalance and AssetsPallet.Pallet.DoBurn: they follow the corrected `decrease_balance`, not `frame/assets/src/lib.rs:1823-1835` as written, for a target that had no record; the as-written behaviour is modelled only by the pure `Ledger.DecreaseBalanceAsWritten` and `Ledger.DoBurnAsWritten`. Neither returns the `BalanceZero` that the `burn` documentation promises.
- AssetsPallet.Pallet.Destroy: it characterises the `died` notifications as a set, not a sequence, because `drain_prefix` visits the records in an order of the storage's choosing.

## Findings

| source | as written | input that shows it | evidently intended | confidence | as-written member | corrected member |
|---|---|---|---|---|---|---|
| frame/assets/src/lib.rs:1801-1847 | on a best-effort debit of 0 from a holder with no balance record, `decrease_balance` still runs `dead_account` for the holder. That lowers the asset's `accounts` counter and releases a consumer reference the holder never held. The call is reachable through the `burn` extrinsic and `slash`. | a valid storage in which asset `id` is live, unfrozen and has at least one holder. Then `do_burn(id, target, amount > 0, None, keep_alive = false, Ignore, best_effort = true)` for a `target` with no record and no freeze. | leave a holder that had no record alone: no `dead_account`, no `died` | not executed | Findings.BurnAsWrittenBreaksValid (on Ledger.DecreaseBalanceAsWritten) | Ledger.DecreaseBalance, with Findings.BurnGuardedLeavesStorage and Properties.BurnKeepsValid |
