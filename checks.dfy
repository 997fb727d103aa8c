/** The admissibility checks and amount preparation of the balance engine:
    pure decisions over the stored asset and balance records. */
module Checks {
  import opened Tokens
  import opened AssetTypes

  /** `can_increase`: the consequence of depositing `amount` into `who`. The
      checks run in this order: unknown asset; supply or balance overflow;
      then, for a holder with no balance (an account to be created), below
      the minimum, no way to place a reference, sufficient counter overflow. */
  function CanIncrease(s: State, env: Env, id: AssetId, who: AccountId, amount: Balance): (r: DepositConsequence)
    ensures r == DepositConsequence.UnknownAsset <==> id !in s.asset
    ensures r == DepositConsequence.Success <==>
      && id in s.asset
      && s.asset[id].supply + amount <= MAX_BALANCE
      && BalanceOf(s, id, who) + amount <= MAX_BALANCE
      && (BalanceOf(s, id, who) == 0 ==>
            && amount >= s.asset[id].minBalance
            && (if s.asset[id].isSufficient then s.asset[id].sufficients < MAX_U32 else env.providers(who) > 0))
    ensures r == DepositConsequence.BelowMinimum <==>
      && id in s.asset
      && s.asset[id].supply + amount <= MAX_BALANCE
      && BalanceOf(s, id, who) == 0
      && amount < s.asset[id].minBalance
    ensures r == DepositConsequence.CannotCreate <==>
      && id in s.asset
      && s.asset[id].supply + amount <= MAX_BALANCE
      && BalanceOf(s, id, who) == 0
      && amount >= s.asset[id].minBalance
      && !s.asset[id].isSufficient
      && env.providers(who) == 0
  {
    if id !in s.asset then DepositConsequence.UnknownAsset
    else
      var details := s.asset[id];
      if CheckedAdd(details.supply, amount).None? then DepositConsequence.Overflow
      else
        var account := AccountOf(s, id, who);
        if CheckedAdd(account.balance, amount).None? then DepositConsequence.Overflow
        else if account.balance == 0 then
          if amount < details.minBalance then DepositConsequence.BelowMinimum
          else if !details.isSufficient && env.providers(who) == 0 then DepositConsequence.CannotCreate
          else if details.isSufficient && CheckedIncU32(details.sufficients).None? then DepositConsequence.Overflow
          else DepositConsequence.Success
        else DepositConsequence.Success
  }

  /** The part of `can_decrease` that consults the freeze hook once the
      remainder `rest` is known: fails `Overflow` when frozen amount plus
      minimum overflows, fails `Frozen` when a respected freeze would be
      broken, and otherwise yields the argument of the later `melted`
      notification when an ignored freeze is broken. */
  function MeltCheck(frozen: Option<Balance>, rest: Balance, minBalance: Balance, respect: RespectFrozen)
    : (r: Result<Option<Balance>, WithdrawConsequence>)
    ensures r == Err(WithdrawConsequence.Overflow) <==> frozen.Some? && frozen.value + minBalance > MAX_BALANCE
    ensures r == Err(WithdrawConsequence.Frozen) <==>
      frozen.Some? && frozen.value + minBalance <= MAX_BALANCE && rest < frozen.value + minBalance && respect == Respect
    ensures r.Err? ==> r == Err(WithdrawConsequence.Overflow) || r == Err(WithdrawConsequence.Frozen)
    ensures (r.Ok? && r.value.Some?) <==>
      (frozen.Some? && frozen.value + minBalance <= MAX_BALANCE && rest < frozen.value + minBalance && respect == Ignore)
    ensures r.Ok? && r.value.Some? ==> r.value.value == SaturatingSub(rest, minBalance)
  {
    match frozen
    case None => Ok(None)
    case Some(f) =>
      match CheckedAdd(f, minBalance)
      case None => Err(WithdrawConsequence.Overflow)
      case Some(required) =>
        assert required == f + minBalance;
        if rest < required then
          if respect == Respect then Err(WithdrawConsequence.Frozen)
          else assert respect == Ignore; Ok(Some(SaturatingSub(rest, minBalance)))
        else Ok(None)
  }

  /** An accepted withdrawal: plain success or success that empties the account. */
  predicate Accepted(c: WithdrawConsequence)
  {
    c.ReducedToZero? || c == WithdrawConsequence.Success
  }

  /** `can_decrease`: the consequence of withdrawing `amount` from `who`,
      together with the argument for the freeze hook's `melted` call, if one
      is due. Checks in order: unknown asset, supply underflow, asset frozen,
      account frozen, insufficient funds, the freeze hook, then whether the
      remainder falls below the minimum. */
  function CanDecrease(s: State, env: Env, id: AssetId, who: AccountId, amount: Balance, keepAlive: bool, respect: RespectFrozen)
    : (r: (WithdrawConsequence, Option<Balance>))
    ensures r.0 == WithdrawConsequence.UnknownAsset <==> id !in s.asset
    ensures r.0 == WithdrawConsequence.Underflow <==> id in s.asset && s.asset[id].supply < amount
    ensures r.0 == WithdrawConsequence.NoFunds <==>
      && id in s.asset && amount <= s.asset[id].supply
      && !s.asset[id].isFrozen && !AccountOf(s, id, who).isFrozen
      && BalanceOf(s, id, who) < amount
    // An accepted withdrawal is within the funds, leaves no dust and honours a respected freeze.
    ensures Accepted(r.0) ==>
      && id in s.asset && amount <= s.asset[id].supply
      && !s.asset[id].isFrozen && !AccountOf(s, id, who).isFrozen
      && amount <= BalanceOf(s, id, who)
      && (r.0 == WithdrawConsequence.Success ==> BalanceOf(s, id, who) - amount >= s.asset[id].minBalance)
      && (r.0.ReducedToZero? ==>
            !keepAlive && r.0.dust == BalanceOf(s, id, who) - amount < s.asset[id].minBalance)
      && (respect == Respect && env.frozen(id, who).Some? ==>
            BalanceOf(s, id, who) - amount >= env.frozen(id, who).value + s.asset[id].minBalance)
    // The later outcomes, each exactly when the checks before it pass and its own fails.
    ensures r.0 == WithdrawConsequence.Frozen <==>
      && id in s.asset && amount <= s.asset[id].supply
      && (|| s.asset[id].isFrozen || AccountOf(s, id, who).isFrozen
          || (&& amount <= BalanceOf(s, id, who)
              && MeltCheck(env.frozen(id, who), BalanceOf(s, id, who) - amount, s.asset[id].minBalance, respect)
                 == Err(WithdrawConsequence.Frozen)))
    ensures r.0 == WithdrawConsequence.Overflow <==>
      && id in s.asset && amount <= s.asset[id].supply
      && !s.asset[id].isFrozen && !AccountOf(s, id, who).isFrozen
      && amount <= BalanceOf(s, id, who)
      && env.frozen(id, who).Some? && env.frozen(id, who).value + s.asset[id].minBalance > MAX_BALANCE
    ensures r.0 == WithdrawConsequence.WouldDie <==>
      && keepAlive && id in s.asset && amount <= s.asset[id].supply
      && !s.asset[id].isFrozen && !AccountOf(s, id, who).isFrozen
      && amount <= BalanceOf(s, id, who)
      && MeltCheck(env.frozen(id, who), BalanceOf(s, id, who) - amount, s.asset[id].minBalance, respect).Ok?
      && BalanceOf(s, id, who) - amount < s.asset[id].minBalance
    ensures r.0.ReducedToZero? <==>
      && !keepAlive && id in s.asset && amount <= s.asset[id].supply
      && !s.asset[id].isFrozen && !AccountOf(s, id, who).isFrozen
      && amount <= BalanceOf(s, id, who)
      && MeltCheck(env.frozen(id, who), BalanceOf(s, id, who) - amount, s.asset[id].minBalance, respect).Ok?
      && BalanceOf(s, id, who) - amount < s.asset[id].minBalance
    ensures r.0 == WithdrawConsequence.Success <==>
      && id in s.asset && amount <= s.asset[id].supply
      && !s.asset[id].isFrozen && !AccountOf(s, id, who).isFrozen
      && amount <= BalanceOf(s, id, who)
      && MeltCheck(env.frozen(id, who), BalanceOf(s, id, who) - amount, s.asset[id].minBalance, respect).Ok?
      && BalanceOf(s, id, who) - amount >= s.asset[id].minBalance
    // A melt is reported only on an accepted withdrawal that breaks an ignored freeze.
    ensures r.1.Some? ==>
      && Accepted(r.0) && respect == Ignore && env.frozen(id, who).Some?
      && BalanceOf(s, id, who) - amount < env.frozen(id, who).value + s.asset[id].minBalance
      && r.1.value == SaturatingSub(BalanceOf(s, id, who) - amount, s.asset[id].minBalance)
  {
    if id !in s.asset then (WithdrawConsequence.UnknownAsset, None)
    else
      var details := s.asset[id];
      if CheckedSub(details.supply, amount).None? then (WithdrawConsequence.Underflow, None)
      else if details.isFrozen then (WithdrawConsequence.Frozen, None)
      else
        var account := AccountOf(s, id, who);
        if account.isFrozen then (WithdrawConsequence.Frozen, None)
        else
          match CheckedSub(account.balance, amount)
          case None => (WithdrawConsequence.NoFunds, None)
          case Some(rest) =>
            match MeltCheck(env.frozen(id, who), rest, details.minBalance, respect)
            case Err(c) => (c, None)
            case Ok(maybeNewFrozen) =>
              if rest < details.minBalance then
                if keepAlive then (WithdrawConsequence.WouldDie, None)
                else (WithdrawConsequence.ReducedToZero(rest), maybeNewFrozen)
              else (WithdrawConsequence.Success, maybeNewFrozen)
  }

  /** `decreasable_balance`: the largest amount meant to be withdrawable from
      `who`. Fails on an unknown asset, a frozen asset or account, and when a
      respected frozen amount plus the minimum overflows. */
  function DecreasableBalance(s: State, env: Env, id: AssetId, who: AccountId, keepAlive: bool, respect: RespectFrozen)
    : (r: Result<Balance, PalletError>)
    ensures r == Err(PalletError.Unknown) <==> id !in s.asset
    ensures r == Err(PalletError.Frozen) <==> id in s.asset && (s.asset[id].isFrozen || AccountOf(s, id, who).isFrozen)
    ensures r == Err(PalletError.Overflow) <==>
      && id in s.asset && !s.asset[id].isFrozen && !AccountOf(s, id, who).isFrozen
      && respect == Respect && env.frozen(id, who).Some?
      && env.frozen(id, who).value + s.asset[id].minBalance > MAX_BALANCE
    ensures r.Ok? ==> r.value <= BalanceOf(s, id, who) && r.value <= s.asset[id].supply
    // What stays behind: the frozen amount and the minimum, or just the minimum.
    ensures r.Ok? && respect == Respect && env.frozen(id, who).Some? ==>
      r.value == Min(SaturatingSub(BalanceOf(s, id, who), env.frozen(id, who).value + s.asset[id].minBalance), s.asset[id].supply)
    ensures r.Ok? && !(respect == Respect && env.frozen(id, who).Some?) && keepAlive ==>
      r.value == Min(SaturatingSub(BalanceOf(s, id, who), s.asset[id].minBalance), s.asset[id].supply)
    ensures r.Ok? && !(respect == Respect && env.frozen(id, who).Some?) && !keepAlive ==>
      r.value == Min(BalanceOf(s, id, who), s.asset[id].supply)
  {
    if id !in s.asset then Err(PalletError.Unknown)
    else
      var details := s.asset[id];
      if details.isFrozen then Err(PalletError.Frozen)
      else
        var account := AccountOf(s, id, who);
        if account.isFrozen then Err(PalletError.Frozen)
        else
          var amount: Result<Balance, PalletError> :=
            if respect == Respect && env.frozen(id, who).Some? then
              match CheckedAdd(env.frozen(id, who).value, details.minBalance)
              case None => Err(PalletError.Overflow)
              case Some(required) => Ok(SaturatingSub(account.balance, required))
            else if keepAlive then Ok(SaturatingSub(account.balance, details.minBalance))
            else Ok(account.balance);
          match amount
          case Err(e) => Err(e)
          case Ok(a) => Ok(Min(a, details.supply))
  }

  /** `prep_debit`: the amount to debit from `target` for a request of
      `amount`, and the `melted` argument, if any. First caps the request at
      the decreasable balance (failing `BalanceLow` unless best effort), then
      confirms the capped amount with `can_decrease` and adds the dust that
      would otherwise be left behind. */
  function PrepDebit(s: State, env: Env, id: AssetId, target: AccountId, amount: Balance,
                     keepAlive: bool, respect: RespectFrozen, bestEffort: bool)
    : (r: Result<(Balance, Option<Balance>), DispatchError>)
    ensures r.Ok? ==> id in s.asset
    // Never more than the balance; at least the request unless best effort.
    ensures r.Ok? ==> r.value.0 <= BalanceOf(s, id, target)
    ensures r.Ok? && !bestEffort ==> r.value.0 >= amount
    // More than the request only by the swept dust, which is below the minimum.
    ensures r.Ok? && r.value.0 > amount ==> r.value.0 - amount < s.asset[id].minBalance
    // What remains is nothing or at least the minimum (at least the minimum when kept alive).
    ensures r.Ok? ==>
      var rest := BalanceOf(s, id, target) - r.value.0;
      (rest == 0 || rest >= s.asset[id].minBalance) && (keepAlive ==> rest >= s.asset[id].minBalance)
    // A respected freeze is never cut into.
    ensures r.Ok? && respect == Respect && env.frozen(id, target).Some? ==>
      BalanceOf(s, id, target) - r.value.0 >= env.frozen(id, target).value + s.asset[id].minBalance
    ensures r.Ok? && r.value.1.Some? ==> respect == Ignore
    ensures !bestEffort && amount > 0 && r.Ok? ==> (id, target) in s.account || BalanceOf(s, id, target) > 0
  {
    match DecreasableBalance(s, env, id, target, keepAlive, respect)
    case Err(e) => Err(Module(e))
    case Ok(cap) =>
      var actual := Min(cap, amount);
      if !(bestEffort || actual >= amount) then Err(Module(PalletError.BalanceLow))
      else
        var (conseq, melted) := CanDecrease(s, env, id, target, actual, keepAlive, respect);
        match conseq.IntoResult()
        case Ok(dust) => Ok((SaturatingAdd(actual, dust), melted))
        case Err(e) => Err(Token(e))
  }

  /** `prep_credit`: splits a debit into the amount credited to `dest` and
      the dust to burn. With `burnDust` and a debit of at least `amount`, the
      excess over `amount` is burned; otherwise the whole debit is credited.
      Succeeds only when `can_increase` admits the credit. */
  function PrepCredit(s: State, env: Env, id: AssetId, dest: AccountId, amount: Balance, debit: Balance, burnDust: bool)
    : (r: Result<(Balance, Option<Balance>), DispatchError>)
    ensures r.Ok? <==> CanIncrease(s, env, id, dest, if burnDust && debit >= amount then amount else debit) == DepositConsequence.Success
    ensures r.Ok? && burnDust && debit >= amount ==> r.value == (amount, Some(debit - amount))
    ensures r.Ok? && !(burnDust && debit >= amount) ==> r.value == (debit, None)
    // Nothing is created or lost: credit and burn add up to the debit.
    ensures r.Ok? ==> r.value.0 + (if r.value.1.Some? then r.value.1.value else 0) == debit
  {
    var (credit, maybeBurn) :=
      match (burnDust, CheckedSub(debit, amount))
      case (true, Some(dust)) => (amount, Some(dust))
      case _ => (debit, None);
    match CanIncrease(s, env, id, dest, credit).IntoResult()
    case Err(e) => Err(Token(e))
    case Ok(_) => Ok((credit, maybeBurn))
  }
}
