/** When the keys indexer's data is fresh enough to look for a duty's events in a block. */
module Trust {

  // The two delays, in slots.
  datatype Windows = Windows(
    slashing: nat,    // ETH1_FOLLOW_DISTANCE + epochToSlot(EPOCHS_PER_ETH1_VOTING_PERIOD)
    withdrawal: nat)  // epochToSlot(MIN_VALIDATOR_WITHDRAWABILITY_DELAY)

  predicate TrustedForSlashings(w: Windows, storageStateSlot: nat, slot: nat) {
    storageStateSlot >= slot || slot - storageStateSlot <= w.slashing
  }

  predicate TrustedForFullWithdrawals(w: Windows, storageStateSlot: nat, slot: nat) {
    storageStateSlot >= slot || slot - storageStateSlot <= w.withdrawal
  }

  predicate TrustedForBalanceChanges(w: Windows, storageStateSlot: nat, slot: nat) {
    TrustedForFullWithdrawals(w, storageStateSlot, slot)
  }

  predicate TrustedForAnyDuty(w: Windows, storageStateSlot: nat, slot: nat) {
    || TrustedForBalanceChanges(w, storageStateSlot, slot)
    || TrustedForSlashings(w, storageStateSlot, slot)
    || TrustedForFullWithdrawals(w, storageStateSlot, slot)
  }

  predicate TrustedForEveryDuty(w: Windows, storageStateSlot: nat, slot: nat) {
    && TrustedForBalanceChanges(w, storageStateSlot, slot)
    && TrustedForSlashings(w, storageStateSlot, slot)
    && TrustedForFullWithdrawals(w, storageStateSlot, slot)
  }
}
