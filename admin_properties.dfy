/** What the approval, freezing and destruction operations promise: each
    keeps the global invariant, freezing is undone by thawing and blocks
    withdrawals, approvals accumulate and are spent down, and destroying an
    asset releases exactly the references its records held. */
module AdminProperties {
  import opened Tokens
  import opened AssetTypes
  import opened Totals
  import opened Checks
  import opened CheckProperties
  import opened Ledger
  import opened Invariants
  import opened Properties

  /** Setting a record's frozen flag keeps the invariant. */
  lemma FreezeKeepsValid(s: State, origin: AccountId, id: AssetId, who: AccountId, frozen: bool)
    requires Valid(s)
    requires SetAccountFrozen(s, origin, id, who, frozen).Ok?
    ensures Valid(SetAccountFrozen(s, origin, id, who, frozen).value)
  {
    var k := (id, who);
    var s' := SetAccountFrozen(s, origin, id, who, frozen).value;
    var after := Some(s.account[k].(isFrozen := frozen));
    assert s'.asset == s.asset[id := s.asset[id]];
    assert s'.account == Put(s.account, k, after);
    RecordIffBalance(s, id, who);
    ChangeRecord(s, s', k, after);
  }

  /** Setting an asset's frozen flag keeps the invariant. */
  lemma FreezeAssetKeepsValid(s: State, origin: AccountId, id: AssetId, frozen: bool)
    requires Valid(s)
    requires SetAssetFrozen(s, origin, id, frozen).Ok?
    ensures Valid(SetAssetFrozen(s, origin, id, frozen).value)
  {
    var s' := SetAssetFrozen(s, origin, id, frozen).value;
    forall i | i in s'.asset
      ensures AssetValid(s', i)
    {
      assert AssetValid(s, i);
    }
    forall k | k in s'.account
      ensures RecordValid(s', k)
    {
      assert RecordValid(s, k);
    }
    forall who
      ensures RefsValid(s', who)
    {
      assert RefsValid(s, who);
    }
  }

  /** Thawing a record the freezer has just frozen restores the storage,
      provided it was not frozen before. */
  lemma ThawUndoesFreeze(s: State, id: AssetId, who: AccountId)
    requires id in s.asset
    requires Freeze(s, s.asset[id].freezer, id, who).Ok?
    requires !s.account[(id, who)].isFrozen
    ensures Thaw(Freeze(s, s.asset[id].freezer, id, who).value, s.asset[id].admin, id, who) == Ok(s)
  {
    var k := (id, who);
    var s' := Freeze(s, s.asset[id].freezer, id, who).value;
    assert s'.account[k := s'.account[k].(isFrozen := false)] == s.account;
  }

  /** Likewise for assets. */
  lemma ThawAssetUndoesFreezeAsset(s: State, id: AssetId)
    requires id in s.asset && !s.asset[id].isFrozen
    ensures FreezeAsset(s, s.asset[id].freezer, id).Ok?
    ensures ThawAsset(FreezeAsset(s, s.asset[id].freezer, id).value, s.asset[id].admin, id) == Ok(s)
  {
    var s' := FreezeAsset(s, s.asset[id].freezer, id).value;
    assert s'.asset[id := s'.asset[id].(isFrozen := false)] == s.asset;
  }

  /** Once a record or its asset is frozen the holder cannot be debited. */
  lemma FreezeBlocksDebit(s: State, origin: AccountId, id: AssetId, who: AccountId, env: Env, amount: Balance,
                          keepAlive: bool, respect: RespectFrozen, bestEffort: bool)
    requires Freeze(s, origin, id, who).Ok? || FreezeAsset(s, origin, id).Ok?
    ensures var s' := if Freeze(s, origin, id, who).Ok? then Freeze(s, origin, id, who).value else FreezeAsset(s, origin, id).value;
      PrepDebit(s', env, id, who, amount, keepAlive, respect, bestEffort) == Err(Module(PalletError.Frozen))
  {
    var s' := if Freeze(s, origin, id, who).Ok? then Freeze(s, origin, id, who).value else FreezeAsset(s, origin, id).value;
    assert id in s'.asset && (s'.asset[id].isFrozen || AccountOf(s', id, who).isFrozen);
    FrozenCannotWithdraw(s', env, id, who, amount, keepAlive, respect, bestEffort);
  }

  /** Approvals touch only the approvals map, so they keep the invariant. */
  lemma ApproveKeepsValid(s: State, env: Env, id: AssetId, owner: AccountId, delegate: AccountId, amount: Balance, approvalDeposit: nat)
    requires Valid(s)
    requires ApproveTransfer(s, env, id, owner, delegate, amount, approvalDeposit).Ok?
    ensures Valid(ApproveTransfer(s, env, id, owner, delegate, amount, approvalDeposit).value)
  {
    var s' := ApproveTransfer(s, env, id, owner, delegate, amount, approvalDeposit).value;
    assert s' == s.(approvals := s'.approvals);
    ApprovalsIrrelevant(s, s'.approvals);
  }

  lemma CancelKeepsValid(s: State, id: AssetId, owner: AccountId, delegate: AccountId)
    requires Valid(s)
    requires CancelApproval(s, id, owner, delegate).Ok?
    ensures Valid(CancelApproval(s, id, owner, delegate).value)
  {
    ApprovalsIrrelevant(s, CancelApproval(s, id, owner, delegate).value.approvals);
  }

  /** Two approvals for the same pair add up (saturating), and the deposit
      is reserved only once. */
  lemma ApprovalsAccumulate(s: State, env: Env, id: AssetId, owner: AccountId, delegate: AccountId,
                            a: Balance, b: Balance, approvalDeposit: nat)
    requires ApproveTransfer(s, env, id, owner, delegate, a, approvalDeposit).Ok?
    ensures var s1 := ApproveTransfer(s, env, id, owner, delegate, a, approvalDeposit).value;
      && ApproveTransfer(s1, env, id, owner, delegate, b, approvalDeposit).Ok?
      && ApprovedAmount(ApproveTransfer(s1, env, id, owner, delegate, b, approvalDeposit).value, id, owner, delegate)
         == SaturatingAdd(SaturatingAdd(ApprovedAmount(s, id, owner, delegate), a), b)
  {
  }

  /** Cancelling an approval just made leaves the other approvals and the
      balances as they were. */
  lemma CancelAfterApprove(s: State, env: Env, id: AssetId, owner: AccountId, delegate: AccountId, amount: Balance, approvalDeposit: nat)
    requires ApproveTransfer(s, env, id, owner, delegate, amount, approvalDeposit).Ok?
    ensures var s1 := ApproveTransfer(s, env, id, owner, delegate, amount, approvalDeposit).value;
      CancelApproval(s1, id, owner, delegate) == Ok(s.(approvals := s.approvals - {(id, ApprovalKey(owner, delegate))}))
  {
  }

  /** A fresh approval of `a` is spent down by a delegated transfer of `b`:
      no more than approved can be moved, what is left is `a - b`, and a
      full spend removes the approval. */
  lemma SpendApproval(s: State, env: Env, id: AssetId, owner: AccountId, delegate: AccountId, destination: AccountId,
                      a: Balance, b: Balance, approvalDeposit: nat)
    requires (id, ApprovalKey(owner, delegate)) !in s.approvals
    requires ApproveTransfer(s, env, id, owner, delegate, a, approvalDeposit).Ok?
    requires TransferApproved(ApproveTransfer(s, env, id, owner, delegate, a, approvalDeposit).value, env, id, owner, delegate, destination, b).Ok?
    ensures var s2 := TransferApproved(ApproveTransfer(s, env, id, owner, delegate, a, approvalDeposit).value, env, id, owner, delegate, destination, b).value.state;
      && b <= a
      && ApprovedAmount(s2, id, owner, delegate) == a - b
      && (b == a ==> (id, ApprovalKey(owner, delegate)) !in s2.approvals)
  {
  }

  /** A delegated transfer keeps the invariant. */
  lemma TransferApprovedKeepsValid(s: State, env: Env, id: AssetId, owner: AccountId, delegate: AccountId,
                                   destination: AccountId, amount: Balance)
    requires Valid(s)
    requires TransferApproved(s, env, id, owner, delegate, destination, amount).Ok?
    ensures Valid(TransferApproved(s, env, id, owner, delegate, destination, amount).value.state)
  {
    TransferKeepsValid(s, env, id, owner, destination, amount, None, false, Respect, false, false);
    var step := DoTransfer(s, env, id, owner, destination, amount, None, false, Respect, false, false).value;
    var r := TransferApproved(s, env, id, owner, delegate, destination, amount).value;
    assert r.state == step.state.(approvals := r.state.approvals);
    ApprovalsIrrelevant(step.state, r.state.approvals);
  }

  /** A holder's counter after the release of every holder in `holders`. */
  lemma ReleaseCount(m: map<AccountId, nat>, holders: set<AccountId>, who: AccountId)
    ensures Count(ReleaseAll(m, holders), who) ==
      if who in holders then (if Count(m, who) > 0 then Count(m, who) - 1 else 0) else Count(m, who)
  {
  }

  /** Destroying an asset keeps the invariant: the other assets' sums are
      untouched, and each former holder loses exactly the one reference its
      record held. */
  lemma DestroyKeepsValid(s: State, id: AssetId)
    requires Valid(s)
    ensures Valid(Destroyed(s, id))
  {
    var s' := Destroyed(s, id);
    forall i | i in s'.asset
      ensures AssetValid(s', i)
    {
      assert AssetValid(s, i);
      TotalWithout(s.account, id, SupplyOf(i));
      TotalWithout(s.account, id, AccountsOf(i));
      TotalWithout(s.account, id, SufficientsOf(i));
    }
    forall k | k in s'.account
      ensures RecordValid(s', k)
    {
      assert RecordValid(s, k);
    }
    forall who
      ensures RefsValid(s', who)
    {
      DestroyKeepsRefs(s, id, who);
    }
  }

  lemma DestroyKeepsRefs(s: State, id: AssetId, who: AccountId)
    requires RefsValid(s, who)
    ensures RefsValid(Destroyed(s, id), who)
  {
    var s' := Destroyed(s, id);
    var k := (id, who);
    TotalWithout(s.account, id, ConsumersOf(who));
    TotalWithout(s.account, id, SelfSufficientOf(who));
    ReleaseCount(s.refs.consumers, HoldersOf(s.account, id, false), who);
    ReleaseCount(s.refs.sufficients, HoldersOf(s.account, id, true), who);
    assert who in HoldersOf(s.account, id, false) <==> k in s.account && !s.account[k].sufficient;
    assert who in HoldersOf(s.account, id, true) <==> k in s.account && s.account[k].sufficient;
  }

  /** In a consistent storage an asset's witness counts what `destroy`
      will drain: its balance records, and those of them that are
      sufficient; the witness check then passes exactly for that count. */
  lemma WitnessCountsRecords(s: State, id: AssetId, claimed: DestroyWitness)
    requires Valid(s) && id in s.asset
    ensures WitnessOf(s.asset[id]).accounts == Total(s.account, AccountsOf(id))
    ensures WitnessOf(s.asset[id]).sufficients == Total(s.account, SufficientsOf(id))
    ensures WitnessOf(s.asset[id]).approvals == s.asset[id].approvals
    ensures CheckWitness(s.asset[id], claimed).Ok? <==>
      claimed == DestroyWitness(Total(s.account, AccountsOf(id)), Total(s.account, SufficientsOf(id)), s.asset[id].approvals)
  {
    assert AssetValid(s, id);
  }

  /** `destroy` with the asset's own witness, called by its owner or by the
      privileged origin, succeeds and keeps the invariant. */
  lemma DestroyWithWitness(s: State, id: AssetId, maybeCheckOwner: Option<AccountId>)
    requires Valid(s)
    requires id in s.asset && (maybeCheckOwner.Some? ==> maybeCheckOwner.value == s.asset[id].owner)
    ensures Destroy(s, id, maybeCheckOwner, WitnessOf(s.asset[id])) == Ok(Destroyed(s, id))
    ensures Valid(Destroyed(s, id))
  {
    DestroyKeepsValid(s, id);
  }
}
