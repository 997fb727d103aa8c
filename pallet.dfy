/** The assets pallet as an object whose storage maps are updated in place.
    Every operation computes with local copies of the records it touches and
    writes them back only once every check has passed, as the Rust code's
    transactional `try_mutate` does; each method's contract ties the new
    storage to the corresponding function of `Ledger`, whose properties are
    proved in `Properties` and `AdminProperties`. */
module AssetsPallet {
  import opened Tokens
  import opened AssetTypes
  import opened Totals
  import opened Checks
  import opened Ledger
  import Invariants
  import opened Properties
  import opened AdminProperties

  /** What an operation reports to its caller, given its effect. */
  function Reported<T>(spec: Result<Step<T>, DispatchError>): Result<T, DispatchError>
  {
    if spec.Ok? then Ok(spec.value.value) else Err(spec.error)
  }

  /** The freeze-hook calls an operation made: none when it failed. */
  function HooksOf<T>(spec: Result<Step<T>, DispatchError>): seq<HookCall>
  {
    if spec.Ok? then spec.value.hooks else []
  }

  /** The storage after an operation: unchanged when it failed. */
  function After<T>(s: State, spec: Result<Step<T>, DispatchError>): State
  {
    if spec.Ok? then spec.value.state else s
  }

  /** Likewise for the operations that report nothing and call no hook. */
  function Done(spec: Result<State, DispatchError>): Result<(), DispatchError>
  {
    if spec.Ok? then Ok(()) else Err(spec.error)
  }

  function AfterWrite(s: State, spec: Result<State, DispatchError>): State
  {
    if spec.Ok? then spec.value else s
  }

  class Pallet {
    /** `Asset`, `Account`, `Approvals` and the reference counters of the
        system pallet that this pallet drives. */
    var asset: map<AssetId, AssetDetails>
    var account: map<Key, AssetBalance>
    var approvals: map<(AssetId, ApprovalKey), Approval>
    var refs: Refs

    /** The storage as a value. */
    function Storage(): State
      reads this
    {
      State(asset, account, approvals, refs)
    }

    /** The storage invariant: supplies, account counters and references
        agree with the balance records. */
    ghost predicate Valid()
      reads this
    {
      Invariants.Valid(Storage())
    }

    /** Genesis: no assets, no holders. */
    constructor ()
      ensures Storage() == State(map[], map[], map[], Refs(map[], map[]))
      ensures Valid()
    {
      asset := map[];
      account := map[];
      approvals := map[];
      refs := Refs(map[], map[]);
      new;
      assert Invariants.Valid(State(map[], map[], map[], Refs(map[], map[]))) by {
        forall who
          ensures Invariants.RefsValid(State(map[], map[], map[], Refs(map[], map[])), who)
        {
          TotalZero(map[], ConsumersOf(who));
          TotalZero(map[], SelfSufficientOf(who));
        }
      }
    }

    /** `new_account`: counts a new holder in `d` and places its reference. */
    method NewAccount(who: AccountId, d: AssetDetails, env: Env) returns (r: Result<(AssetDetails, bool), DispatchError>)
      modifies this
      ensures var spec := Ledger.NewAccount(who, d, old(refs), env);
        && r == (if spec.Ok? then Ok((spec.value.0, spec.value.2)) else Err(spec.error))
        && refs == (if spec.Ok? then spec.value.1 else old(refs))
      ensures asset == old(asset) && account == old(account) && approvals == old(approvals)
    {
      if d.accounts == MAX_U32 {
        return Err(Module(PalletError.Overflow));
      }
      var d' := d;
      var sufficient: bool;
      if d.isSufficient {
        refs := Refs(refs.consumers, Inc(refs.sufficients, who));
        d' := d'.(sufficients := WrappingIncU32(d'.sufficients));
        sufficient := true;
      } else {
        if !env.consumerAvailable(who) {
          return Err(Module(PalletError.NoProvider));
        }
        refs := Refs(Inc(refs.consumers, who), refs.sufficients);
        sufficient := false;
      }
      d' := d'.(accounts := d.accounts + 1);
      r := Ok((d', sufficient));
    }

    /** `dead_account`: uncounts holder `who` in `d` and releases its reference. */
    method DeadAccount(id: AssetId, who: AccountId, d: AssetDetails, sufficient: bool) returns (d': AssetDetails, died: seq<HookCall>)
      modifies this
      ensures (d', refs, died) == Ledger.DeadAccount(id, who, d, old(refs), sufficient)
      ensures asset == old(asset) && account == old(account) && approvals == old(approvals)
    {
      d' := d;
      if sufficient {
        d' := d'.(sufficients := SaturatingDecU32(d'.sufficients));
        refs := Refs(refs.consumers, Dec(refs.sufficients, who));
      } else {
        refs := Refs(Dec(refs.consumers, who), refs.sufficients);
      }
      d' := d'.(accounts := SaturatingDecU32(d'.accounts));
      died := [Died(id, who)];
    }

    /** The account write of `increase_balance` and of a transfer's
        destination. */
    method Credit(env: Env, id: AssetId, who: AccountId, credit: Balance, details: AssetDetails)
      returns (r: Result<(), DispatchError>)
      modifies this
      ensures var spec := CreditAccount(old(Storage()), env, id, who, credit, details);
        r == Done(spec) && Storage() == AfterWrite(old(Storage()), spec)
    {
      var a := AccountOf(Storage(), id, who);
      var newBalance := SaturatingAdd(a.balance, credit);
      var d := details;
      if a.balance == 0 {
        var n := NewAccount(who, d, env);
        if n.Err? {
          return Err(n.error);
        }
        d := n.value.0;
        a := a.(sufficient := n.value.1);
      }
      a := a.(balance := newBalance);
      asset := asset[id := d];
      account := account[(id, who) := a];
      r := Ok(());
    }

    /** The account write of `decrease_balance` and of a transfer's source:
        `previous` is the debited holder's record as read before the writes. */
    method Debit(guardDeath: bool, id: AssetId, who: AccountId, previous: AssetBalance, actual: Balance, details: AssetDetails)
      returns (died: seq<HookCall>)
      modifies this
      ensures (Storage(), died) == DebitAccount(guardDeath, old(Storage()), id, who, previous, actual, details)
    {
      var a := previous.(balance := SaturatingSub(previous.balance, actual));
      var d := details;
      died := [];
      if a.balance < d.minBalance {
        if !guardDeath || (id, who) in account {
          d, died := DeadAccount(id, who, d, a.sufficient);
          account := account - {(id, who)};
        }
      } else {
        account := account[(id, who) := a];
      }
      asset := asset[id := d];
    }

    /** `increase_balance` with the closure `check`. */
    method IncreaseBalance(env: Env, id: AssetId, beneficiary: AccountId, amount: Balance, check: IncreaseCheck)
      returns (r: Result<(), DispatchError>)
      modifies this
      ensures var spec := Ledger.IncreaseBalance(old(Storage()), env, id, beneficiary, amount, check);
        r == Reported(spec) && Storage() == After(old(Storage()), spec)
    {
      if amount == 0 {
        return Ok(());
      }
      var consequence := CanIncrease(Storage(), env, id, beneficiary, amount).IntoResult();
      if consequence.Err? {
        return Err(Token(consequence.error));
      }
      if id !in asset {
        return Err(Module(PalletError.Unknown));
      }
      var checked := ApplyIncreaseCheck(check, asset[id], amount);
      if checked.Err? {
        return Err(checked.error);
      }
      var details := checked.value;
      if SaturatingAdd(AccountOf(Storage(), id, beneficiary).balance, amount) < details.minBalance {
        return Err(Token(TokenError.BelowMinimum));
      }
      r := Credit(env, id, beneficiary, amount, details);
    }

    /** `do_mint`: issues `amount` to `beneficiary`; keeps the invariant. */
    method DoMint(env: Env, id: AssetId, beneficiary: AccountId, amount: Balance, maybeCheckIssuer: Option<AccountId>)
      returns (r: Result<(), DispatchError>)
      modifies this
      ensures var spec := Ledger.DoMint(old(Storage()), env, id, beneficiary, amount, maybeCheckIssuer);
        r == Reported(spec) && Storage() == After(old(Storage()), spec)
      ensures old(Valid()) ==> Valid()
    {
      ghost var s := Storage();
      r := IncreaseBalance(env, id, beneficiary, amount, Mint(maybeCheckIssuer));
      if r.Ok? && Invariants.Valid(s) {
        MintKeepsValid(s, env, id, beneficiary, amount, maybeCheckIssuer);
      }
    }

    /** `decrease_balance` with the closure `check`, a holder without a
        balance record being left alone. */
    method DecreaseBalance(env: Env, id: AssetId, target: AccountId, amount: Balance,
                           keepAlive: bool, respect: RespectFrozen, bestEffort: bool, check: DecreaseCheck)
      returns (r: Result<Balance, DispatchError>, hooks: seq<HookCall>)
      modifies this
      ensures var spec := Ledger.DecreaseBalance(old(Storage()), env, id, target, amount, keepAlive, respect, bestEffort, check);
        r == Reported(spec) && hooks == HooksOf(spec) && Storage() == After(old(Storage()), spec)
    {
      if amount == 0 {
        return Ok(0), [];
      }
      var prep := PrepDebit(Storage(), env, id, target, amount, keepAlive, respect, bestEffort);
      if prep.Err? {
        return Err(prep.error), [];
      }
      var (actual, melted) := prep.value;
      if id !in asset {
        return Err(Module(PalletError.Unknown)), [];
      }
      var checked := ApplyDecreaseCheck(check, asset[id], actual);
      if checked.Err? {
        return Err(checked.error), [];
      }
      var died := Debit(true, id, target, AccountOf(Storage(), id, target), actual, checked.value);
      r, hooks := Ok(actual), died + MeltHooks(id, target, melted);
    }

    /** `do_burn`: destroys up to `amount` of `target`'s funds; keeps the
        invariant. */
    method DoBurn(env: Env, id: AssetId, target: AccountId, amount: Balance,
                  maybeCheckAdmin: Option<AccountId>, keepAlive: bool, respect: RespectFrozen, bestEffort: bool)
      returns (r: Result<Balance, DispatchError>, hooks: seq<HookCall>)
      modifies this
      ensures var spec := Ledger.DoBurn(old(Storage()), env, id, target, amount, maybeCheckAdmin, keepAlive, respect, bestEffort);
        r == Reported(spec) && hooks == HooksOf(spec) && Storage() == After(old(Storage()), spec)
      ensures old(Valid()) ==> Valid()
    {
      ghost var s := Storage();
      r, hooks := DecreaseBalance(env, id, target, amount, keepAlive, respect, bestEffort, Burn(maybeCheckAdmin));
      if r.Ok? && Invariants.Valid(s) {
        BurnKeepsValid(s, env, id, target, amount, maybeCheckAdmin, keepAlive, respect, bestEffort);
      }
    }

    /** `do_transfer`: moves `amount` from `source` to `dest`; keeps the
        invariant when the debit is exact or the source account holds a record. */
    method DoTransfer(env: Env, id: AssetId, source: AccountId, dest: AccountId, amount: Balance,
                      maybeNeedAdmin: Option<AccountId>, keepAlive: bool, respect: RespectFrozen,
                      bestEffort: bool, burnDust: bool)
      returns (r: Result<Balance, DispatchError>, hooks: seq<HookCall>)
      modifies this
      ensures var spec := Ledger.DoTransfer(old(Storage()), env, id, source, dest, amount, maybeNeedAdmin, keepAlive, respect, bestEffort, burnDust);
        r == Reported(spec) && hooks == HooksOf(spec) && Storage() == After(old(Storage()), spec)
      ensures old(Valid()) && (!bestEffort || (id, source) in old(account)) ==> Valid()
    {
      ghost var s := Storage();
      r, hooks := Transfer(env, id, source, dest, amount, maybeNeedAdmin, keepAlive, respect, bestEffort, burnDust);
      if r.Ok? && Invariants.Valid(s) && (!bestEffort || (id, source) in s.account) {
        TransferKeepsValid(s, env, id, source, dest, amount, maybeNeedAdmin, keepAlive, respect, bestEffort, burnDust);
      }
    }

    /** The checks and writes of `do_transfer`. */
    method Transfer(env: Env, id: AssetId, source: AccountId, dest: AccountId, amount: Balance,
                    maybeNeedAdmin: Option<AccountId>, keepAlive: bool, respect: RespectFrozen,
                    bestEffort: bool, burnDust: bool)
      returns (r: Result<Balance, DispatchError>, hooks: seq<HookCall>)
      modifies this
      ensures var spec := Ledger.DoTransfer(old(Storage()), env, id, source, dest, amount, maybeNeedAdmin, keepAlive, respect, bestEffort, burnDust);
        r == Reported(spec) && hooks == HooksOf(spec) && Storage() == After(old(Storage()), spec)
    {
      if amount == 0 {
        return Ok(0), [];
      }
      var prep := PrepDebit(Storage(), env, id, source, amount, keepAlive, respect, bestEffort);
      if prep.Err? {
        return Err(prep.error), [];
      }
      var (debit, melted) := prep.value;
      var credited := PrepCredit(Storage(), env, id, dest, amount, debit, burnDust);
      if credited.Err? {
        return Err(credited.error), [];
      }
      var (credit, maybeBurn) := credited.value;
      var sourceAccount := AccountOf(Storage(), id, source);
      if id !in asset {
        return Err(Module(PalletError.Unknown)), [];
      }
      var details := asset[id];
      if maybeNeedAdmin.Some? && maybeNeedAdmin.value != details.admin {
        return Err(Module(PalletError.NoPermission)), [];
      }
      if source == dest {
        return Ok(credit), MeltHooks(id, source, melted);
      }
      if maybeBurn.Some? {
        details := details.(supply := SaturatingSub(details.supply, maybeBurn.value));
      }
      var moved, died := MoveFunds(env, id, source, dest, credit, debit, details, sourceAccount);
      if moved.Err? {
        return Err(moved.error), [];
      }
      r, hooks := Ok(credit), died + MeltHooks(id, source, melted);
    }

    /** The writes of `do_transfer` between distinct holders: the
        destination's credit with asset record `details`, then the debit of
        the source account, whose record read before the writes is `sourceAccount`. */
    method MoveFunds(env: Env, id: AssetId, source: AccountId, dest: AccountId, credit: Balance, debit: Balance,
                     details: AssetDetails, sourceAccount: AssetBalance)
      returns (r: Result<(), DispatchError>, died: seq<HookCall>)
      modifies this
      requires sourceAccount == AccountOf(Storage(), id, source)
      ensures var spec := Ledger.MoveFunds(old(Storage()), env, id, source, dest, credit, debit, details);
        && r == (if spec.Ok? then Ok(()) else Err(spec.error))
        && died == (if spec.Ok? then spec.value.1 else [])
        && Storage() == (if spec.Ok? then spec.value.0 else old(Storage()))
    {
      r := Credit(env, id, dest, credit, details);
      if r.Err? {
        return r, [];
      }
      died := Debit(false, id, source, sourceAccount, debit, asset[id]);
    }

    /** `approve_transfer`: `owner` lets `delegate` move `amount` more,
        the held deposit being topped up to `approvalDeposit`. */
    method ApproveTransfer(env: Env, id: AssetId, owner: AccountId, delegate: AccountId, amount: Balance, approvalDeposit: nat)
      returns (r: Result<(), DispatchError>)
      modifies this
      ensures var spec := Ledger.ApproveTransfer(old(Storage()), env, id, owner, delegate, amount, approvalDeposit);
        r == Done(spec) && Storage() == AfterWrite(old(Storage()), spec)
      ensures old(Valid()) ==> Valid()
    {
      ghost var s := Storage();
      var key := (id, ApprovalKey(owner, delegate));
      var approved := if key in approvals then approvals[key] else DEFAULT_APPROVAL;
      if approved.deposit < approvalDeposit {
        if !env.canReserve(owner, approvalDeposit - approved.deposit) {
          return Err(Reserve);
        }
        approved := approved.(deposit := approvalDeposit);
      }
      approved := approved.(amount := SaturatingAdd(approved.amount, amount));
      approvals := approvals[key := approved];
      r := Ok(());
      if Invariants.Valid(s) {
        ApproveKeepsValid(s, env, id, owner, delegate, amount, approvalDeposit);
      }
    }

    /** `cancel_approval`: withdraws an approval. */
    method CancelApproval(id: AssetId, owner: AccountId, delegate: AccountId) returns (r: Result<(), DispatchError>)
      modifies this
      ensures var spec := Ledger.CancelApproval(old(Storage()), id, owner, delegate);
        r == Done(spec) && Storage() == AfterWrite(old(Storage()), spec)
      ensures old(Valid()) ==> Valid()
    {
      ghost var s := Storage();
      var key := (id, ApprovalKey(owner, delegate));
      if key !in approvals {
        return Err(Module(PalletError.Unknown));
      }
      approvals := approvals - {key};
      r := Ok(());
      if Invariants.Valid(s) {
        CancelKeepsValid(s, id, owner, delegate);
      }
    }

    /** `transfer_approved`: `delegate` spends `amount` of its approval on
        a transfer of `owner`'s funds to `destination`. */
    method TransferApproved(env: Env, id: AssetId, owner: AccountId, delegate: AccountId, destination: AccountId, amount: Balance)
      returns (r: Result<(), DispatchError>, hooks: seq<HookCall>)
      modifies this
      ensures var spec := Ledger.TransferApproved(old(Storage()), env, id, owner, delegate, destination, amount);
        r == Reported(spec) && hooks == HooksOf(spec) && Storage() == After(old(Storage()), spec)
      ensures old(Valid()) ==> Valid()
    {
      ghost var s := Storage();
      var key := (id, ApprovalKey(owner, delegate));
      if key !in approvals {
        return Err(Module(PalletError.Unapproved)), [];
      }
      var approved := approvals[key];
      var remaining := CheckedSub(approved.amount, amount);
      if remaining.None? {
        return Err(Module(PalletError.Unapproved)), [];
      }
      var moved;
      moved, hooks := DoTransfer(env, id, owner, destination, amount, None, false, Respect, false, false);
      if moved.Err? {
        return Err(moved.error), [];
      }
      if remaining.value == 0 {
        approvals := approvals - {key};
      } else {
        approvals := approvals[key := approved.(amount := remaining.value)];
      }
      r := Ok(());
      if Invariants.Valid(s) {
        TransferApprovedKeepsValid(s, env, id, owner, delegate, destination, amount);
      }
    }

    /** `freeze` / `thaw`: sets the frozen flag of `who`'s record. */
    method SetAccountFrozen(origin: AccountId, id: AssetId, who: AccountId, frozen: bool) returns (r: Result<(), DispatchError>)
      modifies this
      ensures var spec := Ledger.SetAccountFrozen(old(Storage()), origin, id, who, frozen);
        r == Done(spec) && Storage() == AfterWrite(old(Storage()), spec)
      ensures old(Valid()) ==> Valid()
    {
      ghost var s := Storage();
      if id !in asset {
        return Err(Module(PalletError.Unknown));
      }
      if origin != Role(asset[id], frozen) {
        return Err(Module(PalletError.NoPermission));
      }
      if (id, who) !in account {
        return Err(Module(PalletError.BalanceZero));
      }
      account := account[(id, who) := account[(id, who)].(isFrozen := frozen)];
      r := Ok(());
      if Invariants.Valid(s) {
        FreezeKeepsValid(s, origin, id, who, frozen);
      }
    }

    method Freeze(origin: AccountId, id: AssetId, who: AccountId) returns (r: Result<(), DispatchError>)
      modifies this
      ensures var spec := Ledger.Freeze(old(Storage()), origin, id, who);
        r == Done(spec) && Storage() == AfterWrite(old(Storage()), spec)
      ensures old(Valid()) ==> Valid()
    {
      r := SetAccountFrozen(origin, id, who, true);
    }

    method Thaw(origin: AccountId, id: AssetId, who: AccountId) returns (r: Result<(), DispatchError>)
      modifies this
      ensures var spec := Ledger.Thaw(old(Storage()), origin, id, who);
        r == Done(spec) && Storage() == AfterWrite(old(Storage()), spec)
      ensures old(Valid()) ==> Valid()
    {
      r := SetAccountFrozen(origin, id, who, false);
    }

    /** `freeze_asset` / `thaw_asset`: sets the frozen flag of the asset. */
    method SetAssetFrozen(origin: AccountId, id: AssetId, frozen: bool) returns (r: Result<(), DispatchError>)
      modifies this
      ensures var spec := Ledger.SetAssetFrozen(old(Storage()), origin, id, frozen);
        r == Done(spec) && Storage() == AfterWrite(old(Storage()), spec)
      ensures old(Valid()) ==> Valid()
    {
      ghost var s := Storage();
      if id !in asset {
        return Err(Module(PalletError.Unknown));
      }
      var d := asset[id];
      if origin != Role(d, frozen) {
        return Err(Module(PalletError.NoPermission));
      }
      asset := asset[id := d.(isFrozen := frozen)];
      r := Ok(());
      if Invariants.Valid(s) {
        FreezeAssetKeepsValid(s, origin, id, frozen);
      }
    }

    method FreezeAsset(origin: AccountId, id: AssetId) returns (r: Result<(), DispatchError>)
      modifies this
      ensures var spec := Ledger.FreezeAsset(old(Storage()), origin, id);
        r == Done(spec) && Storage() == AfterWrite(old(Storage()), spec)
      ensures old(Valid()) ==> Valid()
    {
      r := SetAssetFrozen(origin, id, true);
    }

    method ThawAsset(origin: AccountId, id: AssetId) returns (r: Result<(), DispatchError>)
      modifies this
      ensures var spec := Ledger.ThawAsset(old(Storage()), origin, id);
        r == Done(spec) && Storage() == AfterWrite(old(Storage()), spec)
      ensures old(Valid()) ==> Valid()
    {
      r := SetAssetFrozen(origin, id, false);
    }

    /** `destroy`: after the owner and witness checks, drains the asset's
        balance records, then removes the asset record and its approvals. */
    method Destroy(id: AssetId, maybeCheckOwner: Option<AccountId>, claimed: DestroyWitness)
      returns (r: Result<(), DispatchError>, hooks: seq<HookCall>)
      modifies this
      ensures var spec := Ledger.Destroy(old(Storage()), id, maybeCheckOwner, claimed);
        r == Done(spec) && Storage() == AfterWrite(old(Storage()), spec)
      ensures r.Err? ==> hooks == []
      // One `died` notification per drained record.
      ensures r.Ok? ==> forall h :: h in hooks <==> h == Died(id, h.who) && (id, h.who) in old(account)
      ensures old(Valid()) ==> Valid()
    {
      ghost var s := Storage();
      if id !in asset {
        return Err(Module(PalletError.Unknown)), [];
      }
      var details := asset[id];
      if maybeCheckOwner.Some? && maybeCheckOwner.value != details.owner {
        return Err(Module(PalletError.NoPermission)), [];
      }
      var checked := CheckWitness(details, claimed);
      if checked.Err? {
        return Err(checked.error), [];
      }
      details, hooks := Drain(id, details);
      if Invariants.Valid(s) {
        // The Rust code's `debug_assert_eq!`s on the drained counters.
        assert Invariants.AssetValid(s, id);
        assert details.accounts == 0 && details.sufficients == 0;
      }
      asset := asset - {id};
      approvals := map k | k in approvals && k.0 != id :: approvals[k];
      r := Ok(());
      assert Storage() == Destroyed(s, id);
      if Invariants.Valid(s) {
        DestroyKeepsValid(s, id);
      }
    }

    /** The loop over `drain_prefix` in `destroy`: removes the balance
        records of asset `id` one at a time, running `dead_account` on
        `details` for each. Every holder's reference is released once, and
        counters that matched the records end at zero. */
    method Drain(id: AssetId, details: AssetDetails) returns (d: AssetDetails, hooks: seq<HookCall>)
      modifies this
      ensures asset == old(asset) && approvals == old(approvals)
      ensures account == Without(old(account), id)
      ensures refs == Refs(ReleaseAll(old(refs).consumers, HoldersOf(old(account), id, false)),
                           ReleaseAll(old(refs).sufficients, HoldersOf(old(account), id, true)))
      ensures details.accounts == Total(old(account), AccountsOf(id)) ==> d.accounts == 0
      ensures details.sufficients == Total(old(account), SufficientsOf(id)) ==> d.sufficients == 0
      ensures forall h :: h in hooks <==> h == Died(id, h.who) && (id, h.who) in old(account)
    {
      ghost var s := Storage();
      d, hooks := details, [];
      DrainStart(s, id, details);
      while exists k :: k in account && k.0 == id
        invariant asset == s.asset && approvals == s.approvals
        invariant Draining(s, id, details, account, refs, d, hooks)
        decreases |account|
      {
        var k :| k in account && k.0 == id;
        var v := account[k];
        ghost var before, released, previous, notified := account, refs, d, hooks;
        var died;
        d, died := DeadAccount(id, k.1, d, v.sufficient);
        account := account - {k};
        hooks := hooks + died;
        DrainOne(s, id, details, before, released, previous, notified, k, d, refs);
      }
      DrainEnd(s, id, details, account, refs, d, hooks);
    }
  }

  /** The loop invariant of `Drain`, started from storage `s` and asset
      record `details`: the records left are among the original ones and
      include every record of other assets; the holders whose records are
      gone have been released once and notified; the counters, when they
      matched the records at the start, match the records left. */
  ghost predicate Draining(s: State, id: AssetId, details: AssetDetails, account: map<Key, AssetBalance>,
                           refs: Refs, d: AssetDetails, hooks: seq<HookCall>)
  {
    && Without(account, id) == Without(s.account, id)
    && (forall k :: k in account ==> k in s.account && account[k] == s.account[k])
    && refs == Refs(ReleaseAll(s.refs.consumers, HoldersOf(s.account, id, false) - HoldersOf(account, id, false)),
                    ReleaseAll(s.refs.sufficients, HoldersOf(s.account, id, true) - HoldersOf(account, id, true)))
    && (details.accounts == Total(s.account, AccountsOf(id)) ==> d.accounts == Total(account, AccountsOf(id)))
    && (details.sufficients == Total(s.account, SufficientsOf(id)) ==> d.sufficients == Total(account, SufficientsOf(id)))
    && (forall h :: h in hooks <==> h == Died(id, h.who) && (id, h.who) in s.account && (id, h.who) !in account)
  }

  lemma DrainStart(s: State, id: AssetId, details: AssetDetails)
    ensures Draining(s, id, details, s.account, s.refs, details, [])
  {
    assert ReleaseAll(s.refs.consumers, {}) == s.refs.consumers;
    assert ReleaseAll(s.refs.sufficients, {}) == s.refs.sufficients;
  }

  /** Draining record `k` keeps the invariant. */
  lemma DrainOne(s: State, id: AssetId, details: AssetDetails, account: map<Key, AssetBalance>,
                 refs: Refs, d: AssetDetails, hooks: seq<HookCall>, k: Key, d': AssetDetails, refs': Refs)
    requires Draining(s, id, details, account, refs, d, hooks)
    requires k in account && k.0 == id
    requires (d', refs', [Died(id, k.1)]) == Ledger.DeadAccount(id, k.1, d, refs, account[k].sufficient)
    ensures Draining(s, id, details, account - {k}, refs', d', hooks + [Died(id, k.1)])
  {
    var v := account[k];
    var rest := account - {k};
    SplitRemove(account, id, k);
    assert Without(rest, id) == Without(s.account, id);
    DrainStep(s, account, refs, id, k, v.sufficient);
    TotalRemove(account, AccountsOf(id), k);
    TotalRemove(account, SufficientsOf(id), k);
    NotifiedOne(s, id, account, hooks, k);
  }

  lemma NotifiedOne(s: State, id: AssetId, account: map<Key, AssetBalance>, hooks: seq<HookCall>, k: Key)
    requires forall h :: h in hooks <==> h == Died(id, h.who) && (id, h.who) in s.account && (id, h.who) !in account
    requires k in account && k in s.account && k.0 == id
    ensures forall h :: h in hooks + [Died(id, k.1)] <==> h == Died(id, h.who) && (id, h.who) in s.account && (id, h.who) !in account - {k}
  {
    forall h
      ensures h in hooks + [Died(id, k.1)] <==> h == Died(id, h.who) && (id, h.who) in s.account && (id, h.who) !in account - {k}
    {
      assert h in hooks + [Died(id, k.1)] <==> h in hooks || h == Died(id, k.1);
    }
  }

  /** Once no record of the asset is left, the invariant is the contract of `Drain`. */
  lemma DrainEnd(s: State, id: AssetId, details: AssetDetails, account: map<Key, AssetBalance>,
                 refs: Refs, d: AssetDetails, hooks: seq<HookCall>)
    requires Draining(s, id, details, account, refs, d, hooks)
    requires !exists k :: k in account && k.0 == id
    ensures account == Without(s.account, id)
    ensures refs == Refs(ReleaseAll(s.refs.consumers, HoldersOf(s.account, id, false)),
                         ReleaseAll(s.refs.sufficients, HoldersOf(s.account, id, true)))
    ensures details.accounts == Total(s.account, AccountsOf(id)) ==> d.accounts == 0
    ensures details.sufficients == Total(s.account, SufficientsOf(id)) ==> d.sufficients == 0
    ensures forall h :: h in hooks <==> h == Died(id, h.who) && (id, h.who) in s.account
  {
    NoneLeft(account, id);
    assert HoldersOf(s.account, id, false) - HoldersOf(account, id, false) == HoldersOf(s.account, id, false);
    assert HoldersOf(s.account, id, true) - HoldersOf(account, id, true) == HoldersOf(s.account, id, true);
    forall h
      ensures h in hooks <==> h == Died(id, h.who) && (id, h.who) in s.account
    {
      assert (id, h.who) !in account;
    }
  }

  /** A balance map with no record of asset `id`. */
  lemma NoneLeft(account: map<Key, AssetBalance>, id: AssetId)
    requires !exists k :: k in account && k.0 == id
    ensures Without(account, id) == account
    ensures HoldersOf(account, id, false) == {} && HoldersOf(account, id, true) == {}
    ensures Total(account, AccountsOf(id)) == 0 && Total(account, SufficientsOf(id)) == 0
  {
    TotalZero(account, AccountsOf(id));
    TotalZero(account, SufficientsOf(id));
  }

  /** One drained record: the holders released so far grow by `k`'s holder,
      whose counter of the kind its record held drops by one. */
  lemma DrainStep(s: State, before: map<Key, AssetBalance>, released: Refs, id: AssetId, k: Key, sufficient: bool)
    requires k in before && k.0 == id && before[k].sufficient == sufficient
    requires forall j :: j in before ==> j in s.account && before[j] == s.account[j]
    requires released == Refs(ReleaseAll(s.refs.consumers, HoldersOf(s.account, id, false) - HoldersOf(before, id, false)),
                              ReleaseAll(s.refs.sufficients, HoldersOf(s.account, id, true) - HoldersOf(before, id, true)))
    ensures (if sufficient then Refs(released.consumers, Dec(released.sufficients, k.1))
             else Refs(Dec(released.consumers, k.1), released.sufficients)) ==
      Refs(ReleaseAll(s.refs.consumers, HoldersOf(s.account, id, false) - HoldersOf(before - {k}, id, false)),
           ReleaseAll(s.refs.sufficients, HoldersOf(s.account, id, true) - HoldersOf(before - {k}, id, true)))
  {
    var w := k.1;
    forall b: bool
      ensures HoldersOf(s.account, id, b) - HoldersOf(before - {k}, id, b) ==
        if b == sufficient then (HoldersOf(s.account, id, b) - HoldersOf(before, id, b)) + {w}
        else HoldersOf(s.account, id, b) - HoldersOf(before, id, b)
    {
      assert w in HoldersOf(before, id, sufficient);
      assert HoldersOf(before - {k}, id, b) == if b == sufficient then HoldersOf(before, id, b) - {w} else HoldersOf(before, id, b);
    }
    if sufficient {
      ReleaseOneMore(s.refs.sufficients, HoldersOf(s.account, id, true) - HoldersOf(before, id, true), w);
    } else {
      ReleaseOneMore(s.refs.consumers, HoldersOf(s.account, id, false) - HoldersOf(before, id, false), w);
    }
  }

  /** Releasing one more holder is one more saturating decrement. */
  lemma ReleaseOneMore(m: map<AccountId, nat>, holders: set<AccountId>, w: AccountId)
    requires w !in holders
    ensures ReleaseAll(m, holders + {w}) == Dec(ReleaseAll(m, holders), w)
  {
    assert ReleaseAll(m, holders + {w}).Keys == Dec(ReleaseAll(m, holders), w).Keys;
  }
}
