/** What the ledger's operations promise, proved over the storage value:
    each keeps the global invariant, and each moves exactly the funds it
    reports. */
module Properties {
  import opened Tokens
  import opened AssetTypes
  import opened Totals
  import opened Checks
  import opened Ledger
  import opened Invariants

  /** `new_account` followed by `dead_account` for the same holder undoes
      it: the asset record and every reference count are as before. */
  lemma NewThenDeadRestores(id: AssetId, who: AccountId, d: AssetDetails, refs: Refs, env: Env)
    requires NewAccount(who, d, refs, env).Ok?
    requires d.isSufficient ==> d.sufficients < MAX_U32
    ensures
      var (d', refs', sufficient) := NewAccount(who, d, refs, env).value;
      var (d'', refs'', _) := DeadAccount(id, who, d', refs', sufficient);
      && d'' == d
      && (forall w :: Count(refs''.consumers, w) == Count(refs.consumers, w))
      && (forall w :: Count(refs''.sufficients, w) == Count(refs.sufficients, w))
  {
  }

  /** Crediting a holder, with the asset's supply raised by the credit,
      keeps the invariant whenever `can_increase` would admit the credit. */
  lemma CreditKeepsValid(s: State, env: Env, id: AssetId, who: AccountId, credit: Balance, details: AssetDetails)
    requires Valid(s)
    requires id in s.asset && s.asset[id].supply + credit <= MAX_BALANCE
    requires details == s.asset[id].(supply := s.asset[id].supply + credit)
    requires BalanceOf(s, id, who) + credit <= MAX_BALANCE
    requires BalanceOf(s, id, who) + credit >= s.asset[id].minBalance
    requires BalanceOf(s, id, who) == 0 && s.asset[id].isSufficient ==> s.asset[id].sufficients < MAX_U32
    requires CreditAccount(s, env, id, who, credit, details).Ok?
    ensures Valid(CreditAccount(s, env, id, who, credit, details).value)
  {
    var s' := CreditAccount(s, env, id, who, credit, details).value;
    var k := (id, who);
    RecordIffBalance(s, id, who);
    var after := Some(s'.account[k]);
    assert s'.account == Put(s.account, k, after);
    ChangeRecord(s, s', k, after);
  }

  /** Debiting a holder, with the asset's supply lowered by the debit, keeps
      the invariant when the debit leaves nothing or at least the minimum,
      provided the holder had a record or the unregistration is guarded. */
  lemma DebitKeepsValid(guardDeath: bool, s: State, id: AssetId, who: AccountId, actual: Balance, details: AssetDetails)
    requires Valid(s)
    requires id in s.asset && actual <= BalanceOf(s, id, who) && actual <= s.asset[id].supply
    requires BalanceOf(s, id, who) - actual == 0 || BalanceOf(s, id, who) - actual >= s.asset[id].minBalance
    requires details == s.asset[id].(supply := s.asset[id].supply - actual)
    requires guardDeath || (id, who) in s.account
    ensures Valid(DebitAccount(guardDeath, s, id, who, AccountOf(s, id, who), actual, details).0)
  {
    var k := (id, who);
    RecordIffBalance(s, id, who);
    var account := AccountOf(s, id, who);
    var account' := account.(balance := account.balance - actual);
    if account'.balance >= details.minBalance {
      StoreKeepsValid(s, k, account', details);
    } else if guardDeath && k !in s.account {
      var s' := s.(asset := s.asset[id := details]);
      assert s.account == Put(s.account, k, None);
      ChangeRecord(s, s', k, None);
    } else {
      DeadKeepsValid(s, k, details);
    }
  }

  lemma StoreKeepsValid(s: State, k: Key, account': AssetBalance, details: AssetDetails)
    requires Valid(s) && k in s.account && k.0 in s.asset
    requires account' == s.account[k].(balance := account'.balance)
    requires account'.balance >= s.asset[k.0].minBalance
    requires details == s.asset[k.0].(supply := details.supply)
    requires details.supply + s.account[k].balance == s.asset[k.0].supply + account'.balance
    ensures Valid(s.(asset := s.asset[k.0 := details], account := s.account[k := account']))
  {
    ChangeRecord(s, s.(asset := s.asset[k.0 := details], account := s.account[k := account']), k, Some(account'));
  }

  /** Removing an emptied record through `dead_account` keeps the invariant. */
  lemma DeadKeepsValid(s: State, k: Key, details: AssetDetails)
    requires Valid(s) && k in s.account
    requires k.0 in s.asset && s.account[k].balance <= s.asset[k.0].supply
    requires details == s.asset[k.0].(supply := s.asset[k.0].supply - s.account[k].balance)
    ensures
      var (details', refs', _) := DeadAccount(k.0, k.1, details, s.refs, s.account[k].sufficient);
      Valid(State(s.asset[k.0 := details'], s.account - {k}, s.approvals, refs'))
  {
    var (details', refs', _) := DeadAccount(k.0, k.1, details, s.refs, s.account[k].sufficient);
    assert RecordValid(s, k) && AssetValid(s, k.0) && RefsValid(s, k.1);
    WeightBelowTotal(s.account, AccountsOf(k.0), k);
    WeightBelowTotal(s.account, SufficientsOf(k.0), k);
    WeightBelowTotal(s.account, ConsumersOf(k.1), k);
    WeightBelowTotal(s.account, SelfSufficientOf(k.1), k);
    ChangeRecord(s, State(s.asset[k.0 := details'], s.account - {k}, s.approvals, refs'), k, None);
  }

  /** Minting keeps the invariant; the supply and the beneficiary's balance
      both rise by the amount and no other balance moves. */
  lemma MintKeepsValid(s: State, env: Env, id: AssetId, beneficiary: AccountId, amount: Balance, maybeCheckIssuer: Option<AccountId>)
    requires Valid(s)
    requires DoMint(s, env, id, beneficiary, amount, maybeCheckIssuer).Ok?
    ensures var s' := DoMint(s, env, id, beneficiary, amount, maybeCheckIssuer).value.state;
      && Valid(s')
      && (amount > 0 ==> s'.asset[id].supply == s.asset[id].supply + amount)
      && BalanceOf(s', id, beneficiary) == BalanceOf(s, id, beneficiary) + amount
      && (forall k :: k in s.account && k != (id, beneficiary) ==> k in s'.account && s'.account[k] == s.account[k])
  {
    if amount > 0 {
      RecordIffBalance(s, id, beneficiary);
      assert CanIncrease(s, env, id, beneficiary, amount) == DepositConsequence.Success;
      CreditKeepsValid(s, env, id, beneficiary, amount, s.asset[id].(supply := s.asset[id].supply + amount));
    }
    assert forall k :: k in s.account && k != (id, beneficiary) ==> k in s.account - {(id, beneficiary)};
  }

  /** Burning keeps the invariant; the supply and the target's balance both
      fall by the amount reported and no other balance moves. */
  lemma BurnKeepsValid(s: State, env: Env, id: AssetId, target: AccountId, amount: Balance,
                       maybeCheckAdmin: Option<AccountId>, keepAlive: bool, respect: RespectFrozen, bestEffort: bool)
    requires Valid(s)
    requires DoBurn(s, env, id, target, amount, maybeCheckAdmin, keepAlive, respect, bestEffort).Ok?
    ensures var r := DoBurn(s, env, id, target, amount, maybeCheckAdmin, keepAlive, respect, bestEffort).value;
      && Valid(r.state)
      && (amount > 0 ==> r.state.asset[id].supply + r.value == s.asset[id].supply)
      && BalanceOf(r.state, id, target) + r.value == BalanceOf(s, id, target)
      && (forall k :: k in s.account && k != (id, target) ==> k in r.state.account && r.state.account[k] == s.account[k])
  {
    assert forall k :: k in s.account && k != (id, target) ==> k in s.account - {(id, target)};
    if amount > 0 {
      var (actual, _) := PrepDebit(s, env, id, target, amount, keepAlive, respect, bestEffort).value;
      var r := DoBurn(s, env, id, target, amount, maybeCheckAdmin, keepAlive, respect, bestEffort).value;
      assert r.value == actual;
      RecordIffBalance(s, id, target);
      DebitKeepsValid(true, s, id, target, actual, s.asset[id].(supply := s.asset[id].supply - actual));
    }
  }

  /** The supply a credit stores is irrelevant to what else it does. */
  lemma CreditSupplyIrrelevant(s: State, env: Env, id: AssetId, who: AccountId, credit: Balance, d1: AssetDetails, d2: AssetDetails)
    requires d2 == d1.(supply := d2.supply)
    requires CreditAccount(s, env, id, who, credit, d1).Ok?
    ensures var s1 := CreditAccount(s, env, id, who, credit, d1).value;
      && CreditAccount(s, env, id, who, credit, d2).Ok?
      && CreditAccount(s, env, id, who, credit, d2).value == s1.(asset := s1.asset[id := s1.asset[id].(supply := d2.supply)])
  {
  }

  /** A debit overwrites the asset record, so what was stored there before does not matter. */
  lemma DebitAssetIrrelevant(guardDeath: bool, s: State, id: AssetId, who: AccountId, account: AssetBalance,
                             actual: Balance, details: AssetDetails, previous: AssetDetails)
    ensures DebitAccount(guardDeath, s.(asset := s.asset[id := previous]), id, who, account, actual, details).0
         == DebitAccount(guardDeath, s, id, who, account, actual, details).0
  {
    var t := s.(asset := s.asset[id := previous]);
    assert t.asset[id := details] == s.asset[id := details];
  }

  /** The two record changes of a transfer between distinct holders keep
      the invariant: a credit that raises the supply by the credit, then a
      debit that lowers it by the debit. */
  lemma MoveKeepsValid(s: State, env: Env, id: AssetId, source: AccountId, dest: AccountId, credit: Balance, debit: Balance, t1: State)
    requires Valid(s)
    requires source != dest && (id, source) in s.account && id in s.asset
    requires debit <= s.asset[id].supply + credit
    requires credit <= debit <= BalanceOf(s, id, source)
    requires BalanceOf(s, id, source) - debit == 0 || BalanceOf(s, id, source) - debit >= s.asset[id].minBalance
    requires CanIncrease(s, env, id, dest, credit) == DepositConsequence.Success
    requires CreditAccount(s, env, id, dest, credit, s.asset[id].(supply := s.asset[id].supply + credit)) == Ok(t1)
    ensures id in t1.asset && t1.asset[id].supply == s.asset[id].supply + credit
    ensures Valid(DebitAccount(false, t1, id, source, AccountOf(t1, id, source), debit, t1.asset[id].(supply := t1.asset[id].supply - debit)).0)
  {
    var d := s.asset[id];
    var f1 := d.(supply := d.supply + credit);
    var f2 := t1.asset[id].(supply := t1.asset[id].supply - debit);
    CreditKeepsSupply(s, env, id, dest, credit, f1);
    assert (id, source) in t1.account - {(id, dest)};
    assert debit <= d.supply by {
      RecordIffBalance(s, id, source);
    }
    assert Valid(t1) by {
      RecordIffBalance(s, id, dest);
      CreditKeepsValid(s, env, id, dest, credit, f1);
    }
    DebitKeepsValid(false, t1, id, source, debit, f2);
  }

  /** The storage writes of a transfer keep the invariant. */
  lemma MoveFundsKeepsValid(s: State, env: Env, id: AssetId, source: AccountId, dest: AccountId, credit: Balance, debit: Balance)
    requires Valid(s)
    requires source != dest && (id, source) in s.account && id in s.asset
    requires credit <= debit <= BalanceOf(s, id, source)
    requires BalanceOf(s, id, source) - debit == 0 || BalanceOf(s, id, source) - debit >= s.asset[id].minBalance
    requires CanIncrease(s, env, id, dest, credit) == DepositConsequence.Success
    requires debit <= s.asset[id].supply
    requires MoveFunds(s, env, id, source, dest, credit, debit, s.asset[id].(supply := s.asset[id].supply - (debit - credit))).Ok?
    ensures Valid(MoveFunds(s, env, id, source, dest, credit, debit, s.asset[id].(supply := s.asset[id].supply - (debit - credit))).value.0)
  {
    RecordIffBalance(s, id, source);
    var details1 := s.asset[id].(supply := s.asset[id].supply - (debit - credit));
    MoveCredits(s, env, id, source, dest, credit, debit, details1);
    var t1 := CreditAccount(s, env, id, dest, credit, s.asset[id].(supply := s.asset[id].supply + credit)).value;
    MoveShape(s, env, id, source, dest, credit, debit, details1, t1);
    MoveKeepsValid(s, env, id, source, dest, credit, debit, t1);
  }

  /** The two storage writes of a transfer, with the supply lowered by the
      burned excess up front, end where a credit that raises the supply by
      the credit and then a debit that lowers it by the debit would. */
  lemma MoveShape(s: State, env: Env, id: AssetId, source: AccountId, dest: AccountId, credit: Balance, debit: Balance,
                  details1: AssetDetails, t1: State)
    requires source != dest && id in s.asset
    requires s.asset[id].supply + credit <= MAX_BALANCE && debit <= s.asset[id].supply + credit
    requires details1 == s.asset[id].(supply := details1.supply)
    requires details1.supply + debit == s.asset[id].supply + credit
    requires MoveFunds(s, env, id, source, dest, credit, debit, details1).Ok?
    requires CreditAccount(s, env, id, dest, credit, s.asset[id].(supply := s.asset[id].supply + credit)) == Ok(t1)
    ensures id in t1.asset && t1.asset[id].supply == s.asset[id].supply + credit
    ensures MoveFunds(s, env, id, source, dest, credit, debit, details1).value.0
         == DebitAccount(false, t1, id, source, AccountOf(t1, id, source), debit, t1.asset[id].(supply := t1.asset[id].supply - debit)).0
  {
    var d := s.asset[id];
    var f1 := d.(supply := d.supply + credit);
    var s1 := CreditAccount(s, env, id, dest, credit, details1).value;
    CreditSupplyIrrelevant(s, env, id, dest, credit, details1, f1);
    CreditElsewhere(s, env, id, dest, source, credit, f1);
    CreditKeepsSupply(s, env, id, dest, credit, details1);
    CreditKeepsSupply(s, env, id, dest, credit, f1);
    var f2 := t1.asset[id].(supply := t1.asset[id].supply - debit);
    assert f2 == s1.asset[id];
    var sourceAccount := AccountOf(s, id, source);
    DebitOnlyAssetDiffers(false, s1, t1, id, source, sourceAccount, debit, f2);
    assert MoveFunds(s, env, id, source, dest, credit, debit, details1).value.0
        == DebitAccount(false, s1, id, source, sourceAccount, debit, s1.asset[id]).0;
  }

  /** A transfer's credit succeeds on the raised supply whenever it does on
      the supply already lowered by the burned excess. */
  lemma MoveCredits(s: State, env: Env, id: AssetId, source: AccountId, dest: AccountId, credit: Balance, debit: Balance, details1: AssetDetails)
    requires id in s.asset && s.asset[id].supply + credit <= MAX_BALANCE
    requires details1 == s.asset[id].(supply := details1.supply)
    requires MoveFunds(s, env, id, source, dest, credit, debit, details1).Ok?
    ensures CreditAccount(s, env, id, dest, credit, s.asset[id].(supply := s.asset[id].supply + credit)).Ok?
  {
    CreditSupplyIrrelevant(s, env, id, dest, credit, details1, s.asset[id].(supply := s.asset[id].supply + credit));
  }

  /** Two storages that differ at most in one asset record, which a debit
      overwrites, end the same after it. */
  lemma DebitOnlyAssetDiffers(guardDeath: bool, a: State, b: State, id: AssetId, who: AccountId, account: AssetBalance,
                              actual: Balance, details: AssetDetails)
    requires a.account == b.account && a.approvals == b.approvals && a.refs == b.refs
    requires id in a.asset && a.asset == b.asset[id := a.asset[id]]
    ensures DebitAccount(guardDeath, a, id, who, account, actual, details).0
         == DebitAccount(guardDeath, b, id, who, account, actual, details).0
  {
    assert a.asset[id := details] == b.asset[id := details];
    var (details', _, _) := DeadAccount(id, who, details, a.refs, account.sufficient);
    assert a.asset[id := details'] == b.asset[id := details'];
  }

  /** A credit leaves every other holder's record as it was. */
  lemma CreditElsewhere(s: State, env: Env, id: AssetId, who: AccountId, other: AccountId, credit: Balance, details: AssetDetails)
    requires other != who
    requires CreditAccount(s, env, id, who, credit, details).Ok?
    ensures AccountOf(CreditAccount(s, env, id, who, credit, details).value, id, other) == AccountOf(s, id, other)
  {
  }

  /** A transfer between distinct holders is the storage writes of
      `MoveFunds` on the debit and credit the checks settle on. */
  lemma TransferShape(s: State, env: Env, id: AssetId, source: AccountId, dest: AccountId, amount: Balance,
                      maybeNeedAdmin: Option<AccountId>, keepAlive: bool, respect: RespectFrozen,
                      bestEffort: bool, burnDust: bool, debit: Balance, melted: Option<Balance>, credit: Balance, maybeBurn: Option<Balance>)
    requires amount > 0 && source != dest && id in s.asset
    requires PrepDebit(s, env, id, source, amount, keepAlive, respect, bestEffort) == Ok((debit, melted))
    requires PrepCredit(s, env, id, dest, amount, debit, burnDust) == Ok((credit, maybeBurn))
    requires debit <= s.asset[id].supply
    requires DoTransfer(s, env, id, source, dest, amount, maybeNeedAdmin, keepAlive, respect, bestEffort, burnDust).Ok?
    ensures MoveFunds(s, env, id, source, dest, credit, debit, s.asset[id].(supply := s.asset[id].supply - (debit - credit))).Ok?
    ensures DoTransfer(s, env, id, source, dest, amount, maybeNeedAdmin, keepAlive, respect, bestEffort, burnDust).value.state
         == MoveFunds(s, env, id, source, dest, credit, debit, s.asset[id].(supply := s.asset[id].supply - (debit - credit))).value.0
    ensures DoTransfer(s, env, id, source, dest, amount, maybeNeedAdmin, keepAlive, respect, bestEffort, burnDust).value.value == credit
  {
    assert DoTransfer(s, env, id, source, dest, amount, maybeNeedAdmin, keepAlive, respect, bestEffort, burnDust)
        == SettledTransfer(s, env, id, source, dest, maybeNeedAdmin, debit, melted, credit, maybeBurn);
    SettledShape(s, env, id, source, dest, maybeNeedAdmin, debit, melted, credit, maybeBurn);
  }

  /** Between distinct holders, a settled transfer that succeeds is the
      storage writes of `MoveFunds`, with the supply lowered by the dust. */
  lemma SettledShape(s: State, env: Env, id: AssetId, source: AccountId, dest: AccountId,
                     maybeNeedAdmin: Option<AccountId>, debit: Balance, melted: Option<Balance>,
                     credit: Balance, maybeBurn: Option<Balance>)
    requires source != dest && id in s.asset && credit <= debit <= s.asset[id].supply
    requires maybeBurn.Some? ==> maybeBurn.value == debit - credit
    requires maybeBurn.None? ==> debit == credit
    requires SettledTransfer(s, env, id, source, dest, maybeNeedAdmin, debit, melted, credit, maybeBurn).Ok?
    ensures MoveFunds(s, env, id, source, dest, credit, debit, s.asset[id].(supply := s.asset[id].supply - (debit - credit))).Ok?
    ensures SettledTransfer(s, env, id, source, dest, maybeNeedAdmin, debit, melted, credit, maybeBurn).value.state
         == MoveFunds(s, env, id, source, dest, credit, debit, s.asset[id].(supply := s.asset[id].supply - (debit - credit))).value.0
  {
    var d := s.asset[id];
    var details1 := if maybeBurn.Some? then d.(supply := SaturatingSub(d.supply, maybeBurn.value)) else d;
    assert details1 == d.(supply := d.supply - (debit - credit));
  }

  /** A transfer keeps the invariant. The source account must hold a record unless
      the debit is exact, which every caller in `pallet-assets` ensures by
      passing `best_effort = false`. */
  lemma TransferKeepsValid(s: State, env: Env, id: AssetId, source: AccountId, dest: AccountId, amount: Balance,
                           maybeNeedAdmin: Option<AccountId>, keepAlive: bool, respect: RespectFrozen,
                           bestEffort: bool, burnDust: bool)
    requires Valid(s)
    requires !bestEffort || (id, source) in s.account
    requires DoTransfer(s, env, id, source, dest, amount, maybeNeedAdmin, keepAlive, respect, bestEffort, burnDust).Ok?
    ensures Valid(DoTransfer(s, env, id, source, dest, amount, maybeNeedAdmin, keepAlive, respect, bestEffort, burnDust).value.state)
  {
    if amount > 0 && source != dest {
      var (debit, melted) := PrepDebit(s, env, id, source, amount, keepAlive, respect, bestEffort).value;
      var (credit, maybeBurn) := PrepCredit(s, env, id, dest, amount, debit, burnDust).value;
      RecordIffBalance(s, id, source);
      TransferShape(s, env, id, source, dest, amount, maybeNeedAdmin, keepAlive, respect, bestEffort, burnDust, debit, melted, credit, maybeBurn);
      MoveFundsKeepsValid(s, env, id, source, dest, credit, debit);
    }
  }

  /** A transfer between distinct holders: the destination gains exactly
      the amount reported, the source account loses at least that, the supply falls
      by the difference (the burned dust) alone, and no other record
      changes. */
  lemma TransferMovesFunds(s: State, env: Env, id: AssetId, source: AccountId, dest: AccountId, amount: Balance,
                           maybeNeedAdmin: Option<AccountId>, keepAlive: bool, respect: RespectFrozen,
                           bestEffort: bool, burnDust: bool)
    requires Valid(s)
    requires amount > 0 && source != dest
    requires DoTransfer(s, env, id, source, dest, amount, maybeNeedAdmin, keepAlive, respect, bestEffort, burnDust).Ok?
    ensures var r := DoTransfer(s, env, id, source, dest, amount, maybeNeedAdmin, keepAlive, respect, bestEffort, burnDust).value;
      && id in s.asset && id in r.state.asset
      && BalanceOf(r.state, id, dest) == BalanceOf(s, id, dest) + r.value
      && BalanceOf(r.state, id, source) + r.value <= BalanceOf(s, id, source)
      && s.asset[id].supply - r.state.asset[id].supply == BalanceOf(s, id, source) - BalanceOf(r.state, id, source) - r.value
      && (forall k :: k in s.account && k != (id, source) && k != (id, dest) ==>
            k in r.state.account && r.state.account[k] == s.account[k])
  {
    RecordIffBalance(s, id, source);
    MovedFunds(s, env, id, source, dest, amount, maybeNeedAdmin, keepAlive, respect, bestEffort, burnDust);
  }

  lemma MovedFunds(s: State, env: Env, id: AssetId, source: AccountId, dest: AccountId, amount: Balance,
                   maybeNeedAdmin: Option<AccountId>, keepAlive: bool, respect: RespectFrozen,
                   bestEffort: bool, burnDust: bool)
    requires amount > 0 && source != dest
    requires DoTransfer(s, env, id, source, dest, amount, maybeNeedAdmin, keepAlive, respect, bestEffort, burnDust).Ok?
    requires id in s.asset ==> BalanceOf(s, id, source) <= s.asset[id].supply
    ensures var r := DoTransfer(s, env, id, source, dest, amount, maybeNeedAdmin, keepAlive, respect, bestEffort, burnDust).value;
      && id in s.asset && id in r.state.asset
      && BalanceOf(r.state, id, dest) == BalanceOf(s, id, dest) + r.value
      && BalanceOf(r.state, id, source) + r.value <= BalanceOf(s, id, source)
      && s.asset[id].supply - r.state.asset[id].supply == BalanceOf(s, id, source) - BalanceOf(r.state, id, source) - r.value
      && (forall k :: k in s.account && k != (id, source) && k != (id, dest) ==>
            k in r.state.account && r.state.account[k] == s.account[k])
  {
    var (debit, melted) := PrepDebit(s, env, id, source, amount, keepAlive, respect, bestEffort).value;
    var (credit, maybeBurn) := PrepCredit(s, env, id, dest, amount, debit, burnDust).value;
    TransferShape(s, env, id, source, dest, amount, maybeNeedAdmin, keepAlive, respect, bestEffort, burnDust, debit, melted, credit, maybeBurn);
    MoveFundsMoves(s, env, id, source, dest, credit, debit, s.asset[id].(supply := s.asset[id].supply - (debit - credit)));
  }

  /** What the two storage writes of a transfer do to the balances. */
  lemma MoveFundsMoves(s: State, env: Env, id: AssetId, source: AccountId, dest: AccountId, credit: Balance, debit: Balance, details: AssetDetails)
    requires source != dest && id in s.asset
    requires debit <= BalanceOf(s, id, source)
    requires BalanceOf(s, id, source) - debit == 0 || BalanceOf(s, id, source) - debit >= details.minBalance
    requires MoveFunds(s, env, id, source, dest, credit, debit, details).Ok?
    ensures var s2 := MoveFunds(s, env, id, source, dest, credit, debit, details).value.0;
      && id in s2.asset && s2.asset[id].supply == details.supply
      && BalanceOf(s2, id, dest) == SaturatingAdd(BalanceOf(s, id, dest), credit)
      && BalanceOf(s2, id, source) == BalanceOf(s, id, source) - debit
      && (forall k :: k in s.account && k != (id, source) && k != (id, dest) ==> k in s2.account && s2.account[k] == s.account[k])
  {
    var s1 := CreditAccount(s, env, id, dest, credit, details).value;
    var sourceAccount := AccountOf(s, id, source);
    var s2 := DebitAccount(false, s1, id, source, sourceAccount, debit, s1.asset[id]).0;
    assert BalanceOf(s1, id, source) == BalanceOf(s, id, source);
    assert (id, dest) in s2.account - {(id, source)} && s1.account[(id, dest)] == s2.account[(id, dest)];
    CreditKeepsSupply(s, env, id, dest, credit, details);
    DebitKeepsSupply(false, s1, id, source, sourceAccount, debit, s1.asset[id]);
    assert forall k :: k in s.account && k != (id, source) && k != (id, dest) ==>
      k in s1.account - {(id, source)} && k in s.account - {(id, dest)};
  }

  /** Neither account step touches the supply it is handed. */
  lemma CreditKeepsSupply(s: State, env: Env, id: AssetId, who: AccountId, credit: Balance, details: AssetDetails)
    requires CreditAccount(s, env, id, who, credit, details).Ok?
    ensures CreditAccount(s, env, id, who, credit, details).value.asset[id].supply == details.supply
  {
  }

  lemma DebitKeepsSupply(guardDeath: bool, s: State, id: AssetId, who: AccountId, account: AssetBalance, actual: Balance, details: AssetDetails)
    ensures DebitAccount(guardDeath, s, id, who, account, actual, details).0.asset[id].supply == details.supply
  {
  }
}
