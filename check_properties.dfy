/** How the checks relate to one another: `decreasable_balance` is an upper
    bound on every withdrawal `can_decrease` accepts, and is itself accepted
    except in three corner cases; `prep_debit` succeeds exactly when the
    capped request is accepted. */
module CheckProperties {
  import opened Tokens
  import opened AssetTypes
  import opened Checks

  /** The corner cases in which an amount within the decreasable balance is
      still refused by `can_decrease`: an ignored freeze whose amount plus the
      minimum overflows, and a zero amount from a holder that already sits
      below a respected freeze or, when kept alive, below the minimum. */
  predicate Refused(s: State, env: Env, id: AssetId, who: AccountId, amount: Balance, keepAlive: bool, respect: RespectFrozen)
    requires id in s.asset
  {
    var f := env.frozen(id, who);
    var min := s.asset[id].minBalance;
    || (respect == Ignore && f.Some? && f.value + min > MAX_BALANCE)
    || (amount == 0 && respect == Respect && f.Some? && BalanceOf(s, id, who) < f.value + min)
    || (amount == 0 && keepAlive && BalanceOf(s, id, who) < min)
  }

  /** Every withdrawal `can_decrease` accepts is within the decreasable
      balance. */
  lemma AcceptedWithinDecreasable(s: State, env: Env, id: AssetId, who: AccountId, amount: Balance,
                                  keepAlive: bool, respect: RespectFrozen)
    requires Accepted(CanDecrease(s, env, id, who, amount, keepAlive, respect).0)
    ensures DecreasableBalance(s, env, id, who, keepAlive, respect).Ok?
    ensures amount <= DecreasableBalance(s, env, id, who, keepAlive, respect).value
  {
    var r := CanDecrease(s, env, id, who, amount, keepAlive, respect);
    var f := env.frozen(id, who);
    if respect == Respect && f.Some? {
      // An overflowing requirement would have been refused by the freeze check.
      assert f.value + s.asset[id].minBalance <= MAX_BALANCE;
    }
  }

  /** An amount within the decreasable balance is accepted unless it is one
      of the corner cases. */
  lemma DecreasableAccepted(s: State, env: Env, id: AssetId, who: AccountId, amount: Balance,
                            keepAlive: bool, respect: RespectFrozen)
    requires DecreasableBalance(s, env, id, who, keepAlive, respect).Ok?
    requires amount <= DecreasableBalance(s, env, id, who, keepAlive, respect).value
    ensures id in s.asset
    ensures Accepted(CanDecrease(s, env, id, who, amount, keepAlive, respect).0)
        <==> !Refused(s, env, id, who, amount, keepAlive, respect)
  {
    var cap := DecreasableBalance(s, env, id, who, keepAlive, respect).value;
    var c := CanDecrease(s, env, id, who, amount, keepAlive, respect).0;
    var f := env.frozen(id, who);
    var min := s.asset[id].minBalance;
    var bal := BalanceOf(s, id, who);
    assert amount <= bal && amount <= s.asset[id].supply;
    if respect == Respect && f.Some? {
      assert bal - amount >= f.value + min || (amount == 0 && bal < f.value + min);
    } else if keepAlive {
      assert bal - amount >= min || (amount == 0 && bal < min);
    }
  }

  /** `prep_debit` succeeds exactly when the decreasable balance is known,
      covers the request unless best effort is asked for, and the capped
      request is accepted by `can_decrease`; the debit is then the capped
      request plus any dust. */
  lemma PrepDebitOk(s: State, env: Env, id: AssetId, target: AccountId, amount: Balance,
                    keepAlive: bool, respect: RespectFrozen, bestEffort: bool)
    ensures var r := PrepDebit(s, env, id, target, amount, keepAlive, respect, bestEffort);
      var cap := DecreasableBalance(s, env, id, target, keepAlive, respect);
      && (r.Ok? <==>
            && cap.Ok?
            && (bestEffort || amount <= cap.value)
            && !Refused(s, env, id, target, Min(cap.value, amount), keepAlive, respect))
      && (r.Ok? ==>
            var c := CanDecrease(s, env, id, target, Min(cap.value, amount), keepAlive, respect);
            && Accepted(c.0)
            && r.value == (Min(cap.value, amount) + (if c.0.ReducedToZero? then c.0.dust else 0), c.1))
  {
    var cap := DecreasableBalance(s, env, id, target, keepAlive, respect);
    if cap.Ok? && (bestEffort || amount <= cap.value) {
      var actual := Min(cap.value, amount);
      DecreasableAccepted(s, env, id, target, actual, keepAlive, respect);
      var c := CanDecrease(s, env, id, target, actual, keepAlive, respect);
      if Accepted(c.0) {
        var dust := if c.0.ReducedToZero? then c.0.dust else 0;
        assert c.0.IntoResult() == Ok(dust);
        assert actual + dust <= BalanceOf(s, id, target);
      }
    }
  }

  /** A frozen asset or a frozen account can withdraw nothing. */
  lemma FrozenCannotWithdraw(s: State, env: Env, id: AssetId, who: AccountId, amount: Balance,
                             keepAlive: bool, respect: RespectFrozen, bestEffort: bool)
    requires id in s.asset && (s.asset[id].isFrozen || AccountOf(s, id, who).isFrozen)
    ensures !Accepted(CanDecrease(s, env, id, who, amount, keepAlive, respect).0)
    ensures DecreasableBalance(s, env, id, who, keepAlive, respect) == Err(PalletError.Frozen)
    ensures PrepDebit(s, env, id, who, amount, keepAlive, respect, bestEffort) == Err(Module(PalletError.Frozen))
  {
  }
}
