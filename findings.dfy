/** A best-effort burn from a holder without a balance record, as
    `decrease_balance` is written, still runs `dead_account`: the asset's
    account counter drops and the holder's consumer reference is released
    although no record was removed. The corrected `DecreaseBalance` leaves
    such a holder alone, and keeps the invariant (`BurnKeepsValid`). */
module Findings {
  import opened Tokens
  import opened AssetTypes
  import opened Totals
  import opened Checks
  import opened CheckProperties
  import opened Ledger
  import opened Invariants

  /** The situation that shows the discrepancy: a live, unfrozen asset with
      at least one holder, and a target that holds no record and whose
      balance is not frozen by the freezer. */
  predicate Scene(s: State, env: Env, id: AssetId, holder: AccountId, target: AccountId)
  {
    && id in s.asset && !s.asset[id].isFrozen
    && (id, holder) in s.account
    && (id, target) !in s.account
    && env.frozen(id, target).None?
  }

  /** The checks of a best-effort burn from a target with no record: there
      is nothing to take and nothing left behind, so the debit is 0. */
  lemma EmptyDebit(s: State, env: Env, id: AssetId, holder: AccountId, target: AccountId, amount: Balance)
    requires Valid(s) && Scene(s, env, id, holder, target)
    ensures s.asset[id].minBalance > 0
    ensures PrepDebit(s, env, id, target, amount, false, Ignore, true) == Ok((0, None))
  {
    assert AssetValid(s, id);
    PrepDebitOk(s, env, id, target, amount, false, Ignore, true);
    assert DecreasableBalance(s, env, id, target, false, Ignore) == Ok(0);
  }

  /** Debiting nothing from a holder without a record, which falls below
      any positive minimum: guarded, only the asset record is stored;
      unguarded, the holder is unregistered. */
  lemma DebitAbsent(guardDeath: bool, s: State, id: AssetId, who: AccountId, details: AssetDetails)
    requires (id, who) !in s.account && details.minBalance > 0
    ensures DebitAccount(guardDeath, s, id, who, DEFAULT_BALANCE, 0, details) ==
      if guardDeath then (s.(asset := s.asset[id := details]), [])
      else (State(s.asset[id := details.(accounts := SaturatingDecU32(details.accounts))], s.account - {(id, who)},
                  s.approvals, Refs(Dec(s.refs.consumers, who), s.refs.sufficients)), [Died(id, who)])
  {
  }

  /** Burning any positive amount, best effort, from the target succeeds as
      written, burns nothing, reports the target dead and lowers the
      asset's account counter by one while every record is still there;
      the storage no longer satisfies the invariant. */
  lemma BurnAsWrittenBreaksValid(s: State, env: Env, id: AssetId, holder: AccountId, target: AccountId, amount: Balance)
    requires Valid(s) && Scene(s, env, id, holder, target) && amount > 0
    ensures var r := DoBurnAsWritten(s, env, id, target, amount, None, false, Ignore, true);
      && r.Ok? && r.value.value == 0 && r.value.hooks == [Died(id, target)]
      && r.value.state.account == s.account
      && id in r.value.state.asset && r.value.state.asset[id].accounts == s.asset[id].accounts - 1
      && !Valid(r.value.state)
  {
    EmptyDebit(s, env, id, holder, target, amount);
    var d := s.asset[id];
    assert ApplyDecreaseCheck(Burn(None), d, 0) == Ok(d);
    assert AccountOf(s, id, target) == DEFAULT_BALANCE;
    DebitAbsent(false, s, id, target, d);
    var r := DoBurnAsWritten(s, env, id, target, amount, None, false, Ignore, true);
    assert s.account - {(id, target)} == s.account;
    assert AssetValid(s, id);
    WeightBelowTotal(s.account, AccountsOf(id), (id, holder));
    assert d.accounts >= 1;
    assert r.value.state.asset[id].accounts == d.accounts - 1;
    assert !AssetValid(r.value.state, id);
  }

  /** The corrected burn on the same input changes nothing, reports nothing
      and burns nothing. */
  lemma BurnGuardedLeavesStorage(s: State, env: Env, id: AssetId, holder: AccountId, target: AccountId, amount: Balance)
    requires Valid(s) && Scene(s, env, id, holder, target)
    ensures DoBurn(s, env, id, target, amount, None, false, Ignore, true) == Ok(Step(s, 0, []))
  {
    if amount > 0 {
      EmptyDebit(s, env, id, holder, target, amount);
      var d := s.asset[id];
      assert ApplyDecreaseCheck(Burn(None), d, 0) == Ok(d);
      assert AccountOf(s, id, target) == DEFAULT_BALANCE;
      DebitAbsent(true, s, id, target, d);
      assert s.asset[id := d] == s.asset;
      assert DebitAccount(true, s, id, target, AccountOf(s, id, target), 0, d) == (s, []);
      assert [] + MeltHooks(id, target, None) == [];
    }
  }
}
