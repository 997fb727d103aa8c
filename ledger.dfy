/** The state transitions of the balance engine as functions on the storage
    value: account creation and removal, minting and burning, transfers,
    approvals, freezing and the destroy witness. Each returns the new storage
    or the error with which the Rust code's transactional storage mutation
    leaves everything as it was. */
module Ledger {
  import opened Tokens
  import opened AssetTypes
  import opened Checks
  import opened Totals

  /** `new_account`: registers a fresh holder with asset record `d`. Fails
      `Overflow` when the account counter is full and `NoProvider` when a
      consumer reference cannot be placed; otherwise counts the account and
      places a self-sufficient reference (sufficient asset) or a consumer
      reference, returning which one it placed. */
  function NewAccount(who: AccountId, d: AssetDetails, refs: Refs, env: Env)
    : (r: Result<(AssetDetails, Refs, bool), DispatchError>)
    ensures r == Err(Module(PalletError.Overflow)) <==> d.accounts == MAX_U32
    ensures r == Err(Module(PalletError.NoProvider)) <==> d.accounts < MAX_U32 && !d.isSufficient && !env.consumerAvailable(who)
    ensures r.Ok? ==>
      var (d', refs', sufficient) := r.value;
      && sufficient == d.isSufficient
      && d'.accounts == d.accounts + 1
      && (sufficient ==>
            && d' == d.(accounts := d.accounts + 1, sufficients := WrappingIncU32(d.sufficients))
            && refs' == Refs(refs.consumers, Inc(refs.sufficients, who)))
      && (!sufficient ==>
            && d' == d.(accounts := d.accounts + 1)
            && refs' == Refs(Inc(refs.consumers, who), refs.sufficients))
  {
    match CheckedIncU32(d.accounts)
    case None => Err(Module(PalletError.Overflow))
    case Some(accounts) =>
      if d.isSufficient then
        Ok((d.(accounts := accounts, sufficients := WrappingIncU32(d.sufficients)),
            Refs(refs.consumers, Inc(refs.sufficients, who)), true))
      else if !env.consumerAvailable(who) then Err(Module(PalletError.NoProvider))
      else Ok((d.(accounts := accounts), Refs(Inc(refs.consumers, who), refs.sufficients), false))
  }

  /** `dead_account`: unregisters holder `who` of asset `id`, releasing the
      reference its record held, and notifies the freeze hook. Never fails:
      all decrements saturate. */
  function DeadAccount(id: AssetId, who: AccountId, d: AssetDetails, refs: Refs, sufficient: bool)
    : (r: (AssetDetails, Refs, seq<HookCall>))
    ensures r.0.accounts == SaturatingDecU32(d.accounts)
    ensures r.0 == d.(accounts := r.0.accounts, sufficients := r.0.sufficients)
    ensures sufficient ==> r.0.sufficients == SaturatingDecU32(d.sufficients) && r.1 == Refs(refs.consumers, Dec(refs.sufficients, who))
    ensures !sufficient ==> r.0.sufficients == d.sufficients && r.1 == Refs(Dec(refs.consumers, who), refs.sufficients)
    ensures r.2 == [Died(id, who)]
  {
    var (d1, refs1) :=
      if sufficient then (d.(sufficients := SaturatingDecU32(d.sufficients)), Refs(refs.consumers, Dec(refs.sufficients, who)))
      else (d, Refs(Dec(refs.consumers, who), refs.sufficients));
    (d1.(accounts := SaturatingDecU32(d1.accounts)), refs1, [Died(id, who)])
  }

  /** The closure `increase_balance` runs on the asset record: none (the
      low-level `Unbalanced` entry point) or that of `do_mint`, which checks
      the issuer when asked to and raises the supply. */
  datatype IncreaseCheck = NoCheck | Mint(maybeCheckIssuer: Option<AccountId>)

  function ApplyIncreaseCheck(check: IncreaseCheck, d: AssetDetails, amount: Balance): (r: Result<AssetDetails, DispatchError>)
    ensures r.Err? <==> check.Mint? && check.maybeCheckIssuer.Some? && check.maybeCheckIssuer.value != d.issuer
    ensures r.Err? ==> r.error == Module(PalletError.NoPermission)
    // Only the supply may change, and only a mint raises it.
    ensures r.Ok? ==> r.value == d.(supply := r.value.supply)
    ensures r.Ok? ==> r.value.supply == if check.Mint? then SaturatingAdd(d.supply, amount) else d.supply
  {
    match check
    case NoCheck => Ok(d)
    case Mint(maybeCheckIssuer) =>
      if maybeCheckIssuer.Some? && maybeCheckIssuer.value != d.issuer then Err(Module(PalletError.NoPermission))
      else Ok(d.(supply := SaturatingAdd(d.supply, amount)))
  }

  /** `increase_balance`: credits `amount` to `beneficiary`, creating the
      account when its balance was zero. A zero amount changes nothing. */
  function IncreaseBalance(s: State, env: Env, id: AssetId, beneficiary: AccountId, amount: Balance, check: IncreaseCheck)
    : (r: Result<Step<()>, DispatchError>)
    ensures amount == 0 ==> r == Ok(Step(s, (), []))
    ensures amount > 0 && CanIncrease(s, env, id, beneficiary, amount) != DepositConsequence.Success ==>
      r == Err(Token(CanIncrease(s, env, id, beneficiary, amount).IntoResult().error))
    // Once `can_increase` admits the deposit, the remaining failures are the issuer check and account creation.
    ensures amount > 0 && CanIncrease(s, env, id, beneficiary, amount) == DepositConsequence.Success ==>
      && (ApplyIncreaseCheck(check, s.asset[id], amount).Err? ==> r == Err(Module(PalletError.NoPermission)))
      && (ApplyIncreaseCheck(check, s.asset[id], amount).Ok? && BalanceOf(s, id, beneficiary) == 0 ==>
            && (s.asset[id].accounts < MAX_U32 && !s.asset[id].isSufficient && !env.consumerAvailable(beneficiary) ==>
                  r == Err(Module(PalletError.NoProvider)))
            && (s.asset[id].accounts == MAX_U32 ==> r == Err(Module(PalletError.Overflow))))
    ensures r.Ok? <==>
      || amount == 0
      || (&& CanIncrease(s, env, id, beneficiary, amount) == DepositConsequence.Success
          && ApplyIncreaseCheck(check, s.asset[id], amount).Ok?
          && BalanceOf(s, id, beneficiary) + amount >= s.asset[id].minBalance
          && (BalanceOf(s, id, beneficiary) == 0 ==>
                s.asset[id].accounts < MAX_U32 && (s.asset[id].isSufficient || env.consumerAvailable(beneficiary))))
    ensures r.Ok? ==>
      && r.value.hooks == []
      && r.value.state.approvals == s.approvals
      && r.value.state.asset.Keys == s.asset.Keys
      && BalanceOf(r.value.state, id, beneficiary) == BalanceOf(s, id, beneficiary) + amount
      && r.value.state.account - {(id, beneficiary)} == s.account - {(id, beneficiary)}
      && (forall other :: other in s.asset && other != id ==> r.value.state.asset[other] == s.asset[other])
    ensures r.Ok? && amount > 0 ==>
      && (check.Mint? ==> r.value.state.asset[id].supply == s.asset[id].supply + amount)
      && (check.NoCheck? ==> r.value.state.asset[id].supply == s.asset[id].supply)
    // A holder with no balance becomes a counted account carrying the asset's kind of reference.
    ensures r.Ok? && amount > 0 && BalanceOf(s, id, beneficiary) == 0 ==>
      && r.value.state.asset[id].accounts == s.asset[id].accounts + 1
      && AccountOf(r.value.state, id, beneficiary).sufficient == s.asset[id].isSufficient
      && (s.asset[id].isSufficient ==> r.value.state.asset[id].sufficients == s.asset[id].sufficients + 1)
  {
    if amount == 0 then Ok(Step(s, (), []))
    else
      match CanIncrease(s, env, id, beneficiary, amount).IntoResult()
      case Err(e) => Err(Token(e))
      case Ok(_) =>
        if id !in s.asset then Err(Module(PalletError.Unknown))
        else
          match ApplyIncreaseCheck(check, s.asset[id], amount)
          case Err(e) => Err(e)
          case Ok(details) =>
            var newBalance := SaturatingAdd(BalanceOf(s, id, beneficiary), amount);
            if newBalance < details.minBalance then Err(Token(TokenError.BelowMinimum))
            else
              match CreditAccount(s, env, id, beneficiary, amount, details)
              case Err(e) => Err(e)
              case Ok(s') => Ok(Step(s', (), []))
  }

  /** The account step of `increase_balance` and of `do_transfer`'s
      destination: adds `credit` to `who`'s record, registering the holder
      first when its balance was zero, and stores `details` as the asset
      record. */
  function CreditAccount(s: State, env: Env, id: AssetId, who: AccountId, credit: Balance, details: AssetDetails)
    : (r: Result<State, DispatchError>)
    ensures r.Ok? ==>
      && r.value.approvals == s.approvals
      && id in r.value.asset && r.value.asset == s.asset[id := r.value.asset[id]]
      && (id, who) in r.value.account && r.value.account == s.account[(id, who) := r.value.account[(id, who)]]
      && r.value.account[(id, who)].balance == SaturatingAdd(BalanceOf(s, id, who), credit)
      && r.value.asset[id].minBalance == details.minBalance
  {
    var a := AccountOf(s, id, who);
    var newBalance := SaturatingAdd(a.balance, credit);
    if a.balance == 0 then
      match NewAccount(who, details, s.refs, env)
      case Err(e) => Err(e)
      case Ok((details', refs', sufficient)) =>
        Ok(State(s.asset[id := details'], s.account[(id, who) := a.(balance := newBalance, sufficient := sufficient)], s.approvals, refs'))
    else Ok(s.(asset := s.asset[id := details], account := s.account[(id, who) := a.(balance := newBalance)]))
  }

  /** The account step of `decrease_balance` and of `do_transfer`'s source:
      stores `who`'s record `account` less `actual`, or removes it and
      unregisters the holder when what is left is below the minimum, and
      stores `details` as the asset record. With `guardDeath`, a holder that
      had no record is left alone. */
  function DebitAccount(guardDeath: bool, s: State, id: AssetId, who: AccountId, account: AssetBalance, actual: Balance, details: AssetDetails)
    : (r: (State, seq<HookCall>))
    ensures r.0.approvals == s.approvals
    ensures id in r.0.asset && r.0.asset == s.asset[id := r.0.asset[id]]
    ensures r.0.asset[id].minBalance == details.minBalance
    ensures r.0.account - {(id, who)} == s.account - {(id, who)}
    // The record survives exactly when what is left reaches the minimum.
    ensures (id, who) in r.0.account <==> SaturatingSub(account.balance, actual) >= details.minBalance
    ensures (id, who) in r.0.account ==> r.0.account[(id, who)] == account.(balance := SaturatingSub(account.balance, actual))
    // The holder is unregistered, and reported dead, exactly when its record goes, unless it had none and the guard is on.
    ensures r.1 == (if SaturatingSub(account.balance, actual) < details.minBalance && (!guardDeath || (id, who) in s.account)
                    then [Died(id, who)] else [])
    ensures r.1 == [] ==> r.0.refs == s.refs
  {
    var account' := account.(balance := SaturatingSub(account.balance, actual));
    if account'.balance < details.minBalance then
      if guardDeath && (id, who) !in s.account then (s.(asset := s.asset[id := details]), [])
      else
        var (details', refs', died) := DeadAccount(id, who, details, s.refs, account'.sufficient);
        (State(s.asset[id := details'], s.account - {(id, who)}, s.approvals, refs'), died)
    else (s.(asset := s.asset[id := details], account := s.account[(id, who) := account']), [])
  }

  /** `do_mint`: `increase_balance` with the issuer check and supply update. */
  function DoMint(s: State, env: Env, id: AssetId, beneficiary: AccountId, amount: Balance, maybeCheckIssuer: Option<AccountId>)
    : (r: Result<Step<()>, DispatchError>)
    ensures amount > 0 && CanIncrease(s, env, id, beneficiary, amount) == DepositConsequence.Success
            && maybeCheckIssuer.Some? && maybeCheckIssuer.value != s.asset[id].issuer ==>
      r == Err(Module(PalletError.NoPermission))
    // A mint is made by the issuer, or without a check, and adds the amount to the supply and to the beneficiary.
    ensures r.Ok? && amount > 0 ==>
      && id in s.asset && id in r.value.state.asset
      && (maybeCheckIssuer.Some? ==> maybeCheckIssuer.value == s.asset[id].issuer)
      && r.value.state.asset[id].supply == s.asset[id].supply + amount
      && BalanceOf(r.value.state, id, beneficiary) == BalanceOf(s, id, beneficiary) + amount
  {
    IncreaseBalance(s, env, id, beneficiary, amount, Mint(maybeCheckIssuer))
  }

  /** The closure `decrease_balance` runs on the asset record once the
      debit is known: none (the low-level `Unbalanced` entry points) or that
      of `do_burn`, which checks the admin when asked to and lowers the
      supply. */
  datatype DecreaseCheck = NoCheck | Burn(maybeCheckAdmin: Option<AccountId>)

  function ApplyDecreaseCheck(check: DecreaseCheck, d: AssetDetails, actual: Balance): (r: Result<AssetDetails, DispatchError>)
    ensures r.Err? <==> check.Burn? && check.maybeCheckAdmin.Some? && check.maybeCheckAdmin.value != d.admin
    ensures r.Err? ==> r.error == Module(PalletError.NoPermission)
    // Only the supply may change, and only a burn lowers it.
    ensures r.Ok? ==> r.value == d.(supply := r.value.supply)
    ensures r.Ok? ==> r.value.supply == if check.Burn? then SaturatingSub(d.supply, actual) else d.supply
  {
    match check
    case NoCheck => Ok(d)
    case Burn(maybeCheckAdmin) =>
      if maybeCheckAdmin.Some? && maybeCheckAdmin.value != d.admin then Err(Module(PalletError.NoPermission))
      else Ok(d.(supply := SaturatingSub(d.supply, actual)))
  }

  function MeltHooks(id: AssetId, who: AccountId, melted: Option<Balance>): seq<HookCall>
  {
    if melted.Some? then [Melted(id, who, melted.value)] else []
  }

  /** `decrease_balance`, parameterised by whether a debit that leaves a
      holder with no record is kept from unregistering it (`guardDeath`).
      `pallet-assets` does not guard (see `DecreaseBalanceAsWritten`); the model
      uses the guarded version. Debits the prepared amount from `target`,
      removing its record when what is left is below the minimum, and
      reports the amount debited. A zero amount changes nothing. */
  function DecreaseBalanceWith(guardDeath: bool, s: State, env: Env, id: AssetId, target: AccountId, amount: Balance,
                               keepAlive: bool, respect: RespectFrozen, bestEffort: bool, check: DecreaseCheck)
    : (r: Result<Step<Balance>, DispatchError>)
    ensures amount == 0 ==> r == Ok(Step(s, 0, []))
    ensures amount > 0 && PrepDebit(s, env, id, target, amount, keepAlive, respect, bestEffort).Err? ==>
      r == Err(PrepDebit(s, env, id, target, amount, keepAlive, respect, bestEffort).error)
    ensures amount > 0 && PrepDebit(s, env, id, target, amount, keepAlive, respect, bestEffort).Ok? ==>
      && id in s.asset
      && (ApplyDecreaseCheck(check, s.asset[id], PrepDebit(s, env, id, target, amount, keepAlive, respect, bestEffort).value.0).Err? ==>
            r == Err(Module(PalletError.NoPermission)))
    ensures r.Ok? <==>
      || amount == 0
      || (&& PrepDebit(s, env, id, target, amount, keepAlive, respect, bestEffort).Ok?
          && ApplyDecreaseCheck(check, s.asset[id], PrepDebit(s, env, id, target, amount, keepAlive, respect, bestEffort).value.0).Ok?)
    ensures r.Ok? && amount > 0 ==>
      && id in s.asset
      && r.value.value == PrepDebit(s, env, id, target, amount, keepAlive, respect, bestEffort).value.0
      && r.value.state.approvals == s.approvals
      && r.value.state.asset.Keys == s.asset.Keys
      && (forall other :: other in s.asset && other != id ==> r.value.state.asset[other] == s.asset[other])
      && BalanceOf(r.value.state, id, target) == BalanceOf(s, id, target) - r.value.value
      && r.value.state.account - {(id, target)} == s.account - {(id, target)}
      && r.value.state.asset[id].minBalance == s.asset[id].minBalance
      && (check.Burn? && BalanceOf(s, id, target) <= s.asset[id].supply ==>
            r.value.state.asset[id].supply == s.asset[id].supply - r.value.value)
      // The record survives exactly when what is left reaches the minimum.
      && ((id, target) in r.value.state.account <==> BalanceOf(s, id, target) - r.value.value >= s.asset[id].minBalance)
  {
    if amount == 0 then Ok(Step(s, 0, []))
    else
      match PrepDebit(s, env, id, target, amount, keepAlive, respect, bestEffort)
      case Err(e) => Err(e)
      case Ok((actual, melted)) =>
        if id !in s.asset then Err(Module(PalletError.Unknown))
        else
          match ApplyDecreaseCheck(check, s.asset[id], actual)
          case Err(e) => Err(e)
          case Ok(details) =>
            var (s', died) := DebitAccount(guardDeath, s, id, target, AccountOf(s, id, target), actual, details);
            Ok(Step(s', actual, died + MeltHooks(id, target, melted)))
  }

  /** `decrease_balance` as `pallet-assets` writes it. */
  function DecreaseBalanceAsWritten(s: State, env: Env, id: AssetId, target: AccountId, amount: Balance,
                                    keepAlive: bool, respect: RespectFrozen, bestEffort: bool, check: DecreaseCheck)
    : (r: Result<Step<Balance>, DispatchError>)
    // Whenever the record goes, the target is unregistered and reported dead, whether or not it had a record.
    ensures r.Ok? && amount > 0 && (id, target) !in r.value.state.account ==> |r.value.hooks| > 0 && r.value.hooks[0] == Died(id, target)
  {
    DecreaseBalanceWith(false, s, env, id, target, amount, keepAlive, respect, bestEffort, check)
  }

  /** `decrease_balance` with the unregistration guarded. */
  function DecreaseBalance(s: State, env: Env, id: AssetId, target: AccountId, amount: Balance,
                           keepAlive: bool, respect: RespectFrozen, bestEffort: bool, check: DecreaseCheck)
    : (r: Result<Step<Balance>, DispatchError>)
    // A target that had no record is left alone: no record, counter or reference changes for it, and no `died`.
    ensures r.Ok? && amount > 0 && (id, target) !in s.account && id in s.asset && s.asset[id].minBalance > 0 ==>
      && r.value.state.account == s.account
      && r.value.state.refs == s.refs
      && Died(id, target) !in r.value.hooks
    // A target whose record goes is unregistered and reported dead.
    ensures r.Ok? && amount > 0 && (id, target) in s.account && (id, target) !in r.value.state.account ==>
      |r.value.hooks| > 0 && r.value.hooks[0] == Died(id, target)
  {
    DecreaseBalanceWith(true, s, env, id, target, amount, keepAlive, respect, bestEffort, check)
  }

  /** `do_burn`: `decrease_balance` with the admin check and supply update. */
  function DoBurn(s: State, env: Env, id: AssetId, target: AccountId, amount: Balance,
                  maybeCheckAdmin: Option<AccountId>, keepAlive: bool, respect: RespectFrozen, bestEffort: bool)
    : (r: Result<Step<Balance>, DispatchError>)
    ensures amount > 0 && PrepDebit(s, env, id, target, amount, keepAlive, respect, bestEffort).Ok?
            && maybeCheckAdmin.Some? && maybeCheckAdmin.value != s.asset[id].admin ==>
      r == Err(Module(PalletError.NoPermission))
    // A burn is made by the admin, or without a check, and takes the amount burned out of the supply and the target.
    ensures r.Ok? && amount > 0 ==>
      && id in s.asset && id in r.value.state.asset
      && (maybeCheckAdmin.Some? ==> maybeCheckAdmin.value == s.asset[id].admin)
      && BalanceOf(r.value.state, id, target) == BalanceOf(s, id, target) - r.value.value
      && (BalanceOf(s, id, target) <= s.asset[id].supply ==> r.value.state.asset[id].supply == s.asset[id].supply - r.value.value)
  {
    DecreaseBalance(s, env, id, target, amount, keepAlive, respect, bestEffort, Burn(maybeCheckAdmin))
  }

  /** `do_burn` on top of `decrease_balance` as `pallet-assets` writes it. */
  function DoBurnAsWritten(s: State, env: Env, id: AssetId, target: AccountId, amount: Balance,
                           maybeCheckAdmin: Option<AccountId>, keepAlive: bool, respect: RespectFrozen, bestEffort: bool)
    : (r: Result<Step<Balance>, DispatchError>)
    ensures r.Ok? && amount > 0 && (id, target) !in r.value.state.account ==> |r.value.hooks| > 0 && r.value.hooks[0] == Died(id, target)
  {
    DecreaseBalanceAsWritten(s, env, id, target, amount, keepAlive, respect, bestEffort, Burn(maybeCheckAdmin))
  }

  /** `do_transfer`: moves `amount` (plus swept dust, unless it is burned)
      from `source` to `dest` and reports the amount credited. A zero amount
      changes nothing; a transfer to oneself changes no storage. */
  function DoTransfer(s: State, env: Env, id: AssetId, source: AccountId, dest: AccountId, amount: Balance,
                      maybeNeedAdmin: Option<AccountId>, keepAlive: bool, respect: RespectFrozen,
                      bestEffort: bool, burnDust: bool)
    : (r: Result<Step<Balance>, DispatchError>)
    ensures amount == 0 ==> r == Ok(Step(s, 0, []))
    ensures amount > 0 && PrepDebit(s, env, id, source, amount, keepAlive, respect, bestEffort).Err? ==>
      r == Err(PrepDebit(s, env, id, source, amount, keepAlive, respect, bestEffort).error)
    // Fails when the amount cannot create or credit the destination.
    ensures amount > 0 && PrepDebit(s, env, id, source, amount, keepAlive, respect, bestEffort).Ok? &&
            PrepCredit(s, env, id, dest, amount, PrepDebit(s, env, id, source, amount, keepAlive, respect, bestEffort).value.0, burnDust).Err? ==>
      r == Err(PrepCredit(s, env, id, dest, amount, PrepDebit(s, env, id, source, amount, keepAlive, respect, bestEffort).value.0, burnDust).error)
    ensures amount > 0 && PrepDebit(s, env, id, source, amount, keepAlive, respect, bestEffort).Ok? &&
            PrepCredit(s, env, id, dest, amount, PrepDebit(s, env, id, source, amount, keepAlive, respect, bestEffort).value.0, burnDust).Ok? ==>
      && id in s.asset
      && (maybeNeedAdmin.Some? && maybeNeedAdmin.value != s.asset[id].admin ==> r == Err(Module(PalletError.NoPermission)))
      && (!(maybeNeedAdmin.Some? && maybeNeedAdmin.value != s.asset[id].admin) && source == dest ==> r.Ok?)
    // Never less than requested unless best effort; never more when dust is burned.
    ensures r.Ok? && !bestEffort ==> r.value.value >= amount
    ensures r.Ok? && burnDust && amount > 0 ==> r.value.value <= amount
    ensures r.Ok? && source == dest ==> r.value.state == s
    ensures r.Ok? ==> r.value.state.approvals == s.approvals
  {
    if amount == 0 then Ok(Step(s, 0, []))
    else
      match PrepDebit(s, env, id, source, amount, keepAlive, respect, bestEffort)
      case Err(e) => Err(e)
      case Ok((debit, melted)) =>
        match PrepCredit(s, env, id, dest, amount, debit, burnDust)
        case Err(e) => Err(e)
        case Ok((credit, maybeBurn)) => SettledTransfer(s, env, id, source, dest, maybeNeedAdmin, debit, melted, credit, maybeBurn)
  }

  /** The rest of `do_transfer` once `prep_debit` and `prep_credit` have
      settled the debit, the melt, the credit and the dust to burn: the
      admin check, then, between distinct holders, the dust burn and the
      storage writes of `MoveFunds`. Reports the credit. */
  function SettledTransfer(s: State, env: Env, id: AssetId, source: AccountId, dest: AccountId,
                           maybeNeedAdmin: Option<AccountId>, debit: Balance, melted: Option<Balance>,
                           credit: Balance, maybeBurn: Option<Balance>)
    : (r: Result<Step<Balance>, DispatchError>)
    ensures id !in s.asset ==> r == Err(Module(PalletError.Unknown))
    ensures id in s.asset && maybeNeedAdmin.Some? && maybeNeedAdmin.value != s.asset[id].admin ==>
      r == Err(Module(PalletError.NoPermission))
    ensures id in s.asset && !(maybeNeedAdmin.Some? && maybeNeedAdmin.value != s.asset[id].admin) && source == dest ==>
      r == Ok(Step(s, credit, MeltHooks(id, source, melted)))
    ensures r.Ok? ==> r.value.value == credit && r.value.state.approvals == s.approvals
  {
    if id !in s.asset then Err(Module(PalletError.Unknown))
    else
      var details := s.asset[id];
      if maybeNeedAdmin.Some? && maybeNeedAdmin.value != details.admin then Err(Module(PalletError.NoPermission))
      else if source == dest then Ok(Step(s, credit, MeltHooks(id, source, melted)))
      else
        var details1 := if maybeBurn.Some? then details.(supply := SaturatingSub(details.supply, maybeBurn.value)) else details;
        match MoveFunds(s, env, id, source, dest, credit, debit, details1)
        case Err(e) => Err(e)
        case Ok((s2, died)) => Ok(Step(s2, credit, died + MeltHooks(id, source, melted)))
  }

  /** The storage writes of `do_transfer` between distinct holders: the
      destination's credit, stored with the asset record `details`, then
      the source account's debit. */
  function MoveFunds(s: State, env: Env, id: AssetId, source: AccountId, dest: AccountId, credit: Balance, debit: Balance, details: AssetDetails)
    : (r: Result<(State, seq<HookCall>), DispatchError>)
    ensures r.Ok? <==> CreditAccount(s, env, id, dest, credit, details).Ok?
    ensures r.Ok? ==> r.value.0.approvals == s.approvals
  {
    match CreditAccount(s, env, id, dest, credit, details)
    case Err(e) => Err(e)
    case Ok(s1) => Ok(DebitAccount(false, s1, id, source, AccountOf(s, id, source), debit, s1.asset[id]))
  }

  /** `approve_transfer`: lets `delegate` move up to `amount` more of
      `owner`'s asset `id`, first topping the held deposit up to
      `approvalDeposit` (failing when the currency cannot reserve the
      difference). The asset's existence is not checked and the `approvals`
      counter is not touched, as in `pallet-assets`. */
  function ApproveTransfer(s: State, env: Env, id: AssetId, owner: AccountId, delegate: AccountId, amount: Balance, approvalDeposit: nat)
    : (r: Result<State, DispatchError>)
    ensures var key := (id, ApprovalKey(owner, delegate));
      var held := if key in s.approvals then s.approvals[key].deposit else 0;
      r.Err? <==> held < approvalDeposit && !env.canReserve(owner, approvalDeposit - held)
    ensures r.Err? ==> r.error == Reserve
    ensures r.Ok? ==>
      var key := (id, ApprovalKey(owner, delegate));
      && key in r.value.approvals
      && r.value.approvals[key].amount == SaturatingAdd(ApprovedAmount(s, id, owner, delegate), amount)
      && r.value.approvals[key].deposit >= approvalDeposit
      && r.value.approvals - {key} == s.approvals - {key}
      && r.value.asset == s.asset && r.value.account == s.account && r.value.refs == s.refs
  {
    var key := (id, ApprovalKey(owner, delegate));
    var approved := if key in s.approvals then s.approvals[key] else DEFAULT_APPROVAL;
    if approved.deposit < approvalDeposit && !env.canReserve(owner, approvalDeposit - approved.deposit) then Err(Reserve)
    else
      var approved' := if approved.deposit < approvalDeposit then approved.(deposit := approvalDeposit) else approved;
      Ok(s.(approvals := s.approvals[key := approved'.(amount := SaturatingAdd(approved'.amount, amount))]))
  }

  /** The amount `delegate` may still move, zero when there is no approval. */
  function ApprovedAmount(s: State, id: AssetId, owner: AccountId, delegate: AccountId): Balance
  {
    var key := (id, ApprovalKey(owner, delegate));
    if key in s.approvals then s.approvals[key].amount else 0
  }

  /** `cancel_approval`: removes the approval, failing `Unknown` when there is none. */
  function CancelApproval(s: State, id: AssetId, owner: AccountId, delegate: AccountId)
    : (r: Result<State, DispatchError>)
    ensures r.Err? <==> (id, ApprovalKey(owner, delegate)) !in s.approvals
    ensures r.Err? ==> r.error == Module(PalletError.Unknown)
    ensures r.Ok? ==> r.value == s.(approvals := s.approvals - {(id, ApprovalKey(owner, delegate))})
  {
    var key := (id, ApprovalKey(owner, delegate));
    if key !in s.approvals then Err(Module(PalletError.Unknown))
    else Ok(s.(approvals := s.approvals - {key}))
  }

  /** `transfer_approved`: `delegate` moves `amount` of `owner`'s asset to
      `destination` within its approval, which shrinks by `amount` and
      disappears once used up. */
  function TransferApproved(s: State, env: Env, id: AssetId, owner: AccountId, delegate: AccountId,
                            destination: AccountId, amount: Balance)
    : (r: Result<Step<()>, DispatchError>)
    ensures (id, ApprovalKey(owner, delegate)) !in s.approvals ==> r == Err(Module(PalletError.Unapproved))
    ensures (id, ApprovalKey(owner, delegate)) in s.approvals && s.approvals[(id, ApprovalKey(owner, delegate))].amount < amount ==>
      r == Err(Module(PalletError.Unapproved))
    ensures r.Ok? ==>
      var key := (id, ApprovalKey(owner, delegate));
      && key in s.approvals
      && amount <= s.approvals[key].amount
      && DoTransfer(s, env, id, owner, destination, amount, None, false, Respect, false, false).Ok?
      && r.value.state.approvals - {key} == s.approvals - {key}
      && (s.approvals[key].amount == amount ==> key !in r.value.state.approvals)
      && (s.approvals[key].amount > amount ==>
            key in r.value.state.approvals && r.value.state.approvals[key].amount + amount == s.approvals[key].amount)
    // The funds move exactly as the owner's own transfer would move them.
    ensures r.Ok? ==>
      var t := DoTransfer(s, env, id, owner, destination, amount, None, false, Respect, false, false).value;
      r.value.state == t.state.(approvals := r.value.state.approvals) && r.value.hooks == t.hooks
    ensures && (id, ApprovalKey(owner, delegate)) in s.approvals
            && amount <= s.approvals[(id, ApprovalKey(owner, delegate))].amount
            && DoTransfer(s, env, id, owner, destination, amount, None, false, Respect, false, false).Err? ==>
      r == Err(DoTransfer(s, env, id, owner, destination, amount, None, false, Respect, false, false).error)
  {
    var key := (id, ApprovalKey(owner, delegate));
    if key !in s.approvals then Err(Module(PalletError.Unapproved))
    else
      var approved := s.approvals[key];
      match CheckedSub(approved.amount, amount)
      case None => Err(Module(PalletError.Unapproved))
      case Some(remaining) =>
        match DoTransfer(s, env, id, owner, destination, amount, None, false, Respect, false, false)
        case Err(e) => Err(e)
        case Ok(step) =>
          var approvals' :=
            if remaining == 0 then step.state.approvals - {key}
            else step.state.approvals[key := approved.(amount := remaining)];
          Ok(Step(step.state.(approvals := approvals'), (), step.hooks))
  }

  /** `destroy_witness`: the counters of an asset record. */
  function WitnessOf(d: AssetDetails): DestroyWitness
  {
    DestroyWitness(d.accounts, d.sufficients, d.approvals)
  }

  /** The witness check of `destroy`: every counter must match. */
  function CheckWitness(d: AssetDetails, claimed: DestroyWitness): (r: Result<(), DispatchError>)
    ensures r.Ok? <==> claimed == WitnessOf(d)
    ensures r.Err? ==> r.error == Module(PalletError.BadWitness)
  {
    if d.accounts != claimed.accounts then Err(Module(PalletError.BadWitness))
    else if d.sufficients != claimed.sufficients then Err(Module(PalletError.BadWitness))
    else if d.approvals != claimed.approvals then Err(Module(PalletError.BadWitness))
    else Ok(())
  }

  /** The holders of asset `id` whose record carries a consumer reference
      (`sufficient == false`) or a self-sufficient one (`sufficient == true`). */
  function HoldersOf(account: map<Key, AssetBalance>, id: AssetId, sufficient: bool): set<AccountId>
  {
    set k | k in account && k.0 == id && account[k].sufficient == sufficient :: k.1
  }

  /** One saturating decrement of the counter of every holder in `holders`. */
  function ReleaseAll(m: map<AccountId, nat>, holders: set<AccountId>): map<AccountId, nat>
  {
    map w | w in m.Keys + holders :: if w in holders then (if Count(m, w) > 0 then Count(m, w) - 1 else 0) else m[w]
  }

  /** The storage after `destroy` of asset `id`: the asset record, every
      balance record and every approval of it are gone, and each holder's
      reference is released. */
  function Destroyed(s: State, id: AssetId): (r: State)
    ensures id !in r.asset
    ensures forall k :: k in r.account ==> k.0 != id
    ensures forall k :: k in r.approvals ==> k.0 != id
    ensures forall k :: k in s.account && k.0 != id ==> k in r.account && r.account[k] == s.account[k]
  {
    State(s.asset - {id},
          Without(s.account, id),
          map k | k in s.approvals && k.0 != id :: s.approvals[k],
          Refs(ReleaseAll(s.refs.consumers, HoldersOf(s.account, id, false)),
               ReleaseAll(s.refs.sufficients, HoldersOf(s.account, id, true))))
  }

  /** `destroy`: fails `Unknown`, then `NoPermission` when a signed caller
      is not the owner, then `BadWitness`; otherwise yields the destroyed
      storage. Unlike the other operations it returns no hook calls: the
      `died` notifications of the drain are made one per record in an order
      of the storage's choosing, and `AssetsPallet.Pallet.Destroy` returns
      them. */
  function Destroy(s: State, id: AssetId, maybeCheckOwner: Option<AccountId>, claimed: DestroyWitness): (r: Result<State, DispatchError>)
    ensures r.Err? <==>
      || id !in s.asset
      || (maybeCheckOwner.Some? && maybeCheckOwner.value != s.asset[id].owner)
      || claimed != WitnessOf(s.asset[id])
    ensures id !in s.asset ==> r == Err(Module(PalletError.Unknown))
    ensures id in s.asset && maybeCheckOwner.Some? && maybeCheckOwner.value != s.asset[id].owner ==>
      r == Err(Module(PalletError.NoPermission))
    ensures r.Ok? ==> r.value == Destroyed(s, id)
  {
    if id !in s.asset then Err(Module(PalletError.Unknown))
    else if maybeCheckOwner.Some? && maybeCheckOwner.value != s.asset[id].owner then Err(Module(PalletError.NoPermission))
    else
      match CheckWitness(s.asset[id], claimed)
      case Err(e) => Err(e)
      case Ok(_) => Ok(Destroyed(s, id))
  }

  /** `freeze` / `thaw`: set the frozen flag of an existing balance record.
      Fails `Unknown`, then `NoPermission` unless the caller holds the role
      (`freezer` for `freeze`, `admin` for `thaw`), then `BalanceZero` when
      the holder has no record. */
  function SetAccountFrozen(s: State, origin: AccountId, id: AssetId, who: AccountId, frozen: bool): (r: Result<State, DispatchError>)
    ensures id !in s.asset ==> r == Err(Module(PalletError.Unknown))
    ensures id in s.asset && origin != Role(s.asset[id], frozen) ==> r == Err(Module(PalletError.NoPermission))
    ensures id in s.asset && origin == Role(s.asset[id], frozen) && (id, who) !in s.account ==> r == Err(Module(PalletError.BalanceZero))
    ensures r.Ok? ==>
      && (id, who) in s.account
      && r.value == s.(account := s.account[(id, who) := s.account[(id, who)].(isFrozen := frozen)])
  {
    if id !in s.asset then Err(Module(PalletError.Unknown))
    else if origin != Role(s.asset[id], frozen) then Err(Module(PalletError.NoPermission))
    else if (id, who) !in s.account then Err(Module(PalletError.BalanceZero))
    else Ok(s.(account := s.account[(id, who) := s.account[(id, who)].(isFrozen := frozen)]))
  }

  /** Who may set a frozen flag: the freezer freezes, the admin thaws. */
  function Role(d: AssetDetails, frozen: bool): AccountId
  {
    if frozen then d.freezer else d.admin
  }

  function Freeze(s: State, origin: AccountId, id: AssetId, who: AccountId): (r: Result<State, DispatchError>)
    ensures r.Ok? <==> id in s.asset && origin == s.asset[id].freezer && (id, who) in s.account
    ensures r.Ok? ==>
      && (id, who) in r.value.account && r.value.account[(id, who)].isFrozen
      && r.value == s.(account := s.account[(id, who) := r.value.account[(id, who)]])
  {
    SetAccountFrozen(s, origin, id, who, true)
  }

  function Thaw(s: State, origin: AccountId, id: AssetId, who: AccountId): (r: Result<State, DispatchError>)
    ensures r.Ok? <==> id in s.asset && origin == s.asset[id].admin && (id, who) in s.account
    ensures r.Ok? ==>
      && (id, who) in r.value.account && !r.value.account[(id, who)].isFrozen
      && r.value == s.(account := s.account[(id, who) := r.value.account[(id, who)]])
  {
    SetAccountFrozen(s, origin, id, who, false)
  }

  /** `freeze_asset` / `thaw_asset`: set the frozen flag of an existing
      asset. Fails `Unknown`, then `NoPermission` unless the caller holds
      the role. */
  function SetAssetFrozen(s: State, origin: AccountId, id: AssetId, frozen: bool): (r: Result<State, DispatchError>)
    ensures r.Err? <==> id !in s.asset || origin != Role(s.asset[id], frozen)
    ensures id !in s.asset ==> r == Err(Module(PalletError.Unknown))
    ensures id in s.asset && origin != Role(s.asset[id], frozen) ==> r == Err(Module(PalletError.NoPermission))
    ensures r.Ok? ==> r.value == s.(asset := s.asset[id := s.asset[id].(isFrozen := frozen)])
  {
    if id !in s.asset then Err(Module(PalletError.Unknown))
    else if origin != Role(s.asset[id], frozen) then Err(Module(PalletError.NoPermission))
    else Ok(s.(asset := s.asset[id := s.asset[id].(isFrozen := frozen)]))
  }

  function FreezeAsset(s: State, origin: AccountId, id: AssetId): (r: Result<State, DispatchError>)
    ensures r.Ok? <==> id in s.asset && origin == s.asset[id].freezer
    ensures r.Ok? ==> id in r.value.asset && r.value.asset[id].isFrozen && r.value == s.(asset := s.asset[id := r.value.asset[id]])
  {
    SetAssetFrozen(s, origin, id, true)
  }

  function ThawAsset(s: State, origin: AccountId, id: AssetId): (r: Result<State, DispatchError>)
    ensures r.Ok? <==> id in s.asset && origin == s.asset[id].admin
    ensures r.Ok? ==> id in r.value.asset && !r.value.asset[id].isFrozen && r.value == s.(asset := s.asset[id := r.value.asset[id]])
  {
    SetAssetFrozen(s, origin, id, false)
  }
}
