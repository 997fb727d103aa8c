/** The freeze hook of the assets-freezer pallet: per (asset, holder) it
    stores how much is reserved and how much of that has melted, reports
    the reserved amount to the assets ledger as the frozen balance, and
    records melts the ledger reports back. */
module Freezer {
  import opened Tokens
  import opened AssetTypes
  import opened Checks

  /** `FreezeData`: the amount reserved, and the part of it that has melted
      because the ledger took funds despite the freeze. */
  datatype FreezeData = FreezeData(reserved: Balance, melted: Balance)

  /** What the store yields for a holder it has no entry for. */
  const DEFAULT_FREEZE := FreezeData(0, 0)

  /** `Store::get`. */
  function DataOf(store: map<Key, FreezeData>, id: AssetId, who: AccountId): FreezeData
  {
    if (id, who) in store then store[(id, who)] else DEFAULT_FREEZE
  }

  /** `frozen_balance`: nothing is frozen exactly when nothing is reserved;
      otherwise the reserved amount is. */
  function FrozenOf(store: map<Key, FreezeData>, id: AssetId, who: AccountId): (r: Option<Balance>)
    ensures r.None? <==> DataOf(store, id, who).reserved == 0
    ensures r.Some? ==> r.value == DataOf(store, id, who).reserved
  {
    var f := DataOf(store, id, who);
    if f.reserved == 0 then None else Some(f.reserved)
  }

  /** The store after `melted(id, who, amount)`: the entry's melted amount
      grows (saturating); a holder without an entry is not written. */
  function MeltIn(store: map<Key, FreezeData>, id: AssetId, who: AccountId, amount: Balance): (r: map<Key, FreezeData>)
    ensures r.Keys == store.Keys
    ensures (id, who) in store ==>
      r[(id, who)] == FreezeData(store[(id, who)].reserved, SaturatingAdd(store[(id, who)].melted, amount))
    ensures forall k :: k in store && k != (id, who) ==> r[k] == store[k]
  {
    var k := (id, who);
    if k in store then store[k := store[k].(melted := SaturatingAdd(store[k].melted, amount))] else store
  }

  /** The store after the ledger's hook calls, made in order; `died` leaves
      the store alone. */
  function AfterHooks(store: map<Key, FreezeData>, hooks: seq<HookCall>): map<Key, FreezeData>
    decreases |hooks|
  {
    if hooks == [] then store
    else
      var h := hooks[0];
      var store' := if h.Melted? then MeltIn(store, h.id, h.who, h.amount) else store;
      AfterHooks(store', hooks[1..])
  }

  /** One melt changes neither the entries present nor any reserved amount,
      and never lowers a melted amount. */
  lemma MeltKeepsReserved(store: map<Key, FreezeData>, id: AssetId, who: AccountId, amount: Balance, i: AssetId, w: AccountId)
    ensures MeltIn(store, id, who, amount).Keys == store.Keys
    ensures DataOf(MeltIn(store, id, who, amount), i, w).reserved == DataOf(store, i, w).reserved
    ensures DataOf(MeltIn(store, id, who, amount), i, w).melted >= DataOf(store, i, w).melted
    ensures (i, w) != (id, who) ==> DataOf(MeltIn(store, id, who, amount), i, w) == DataOf(store, i, w)
  {
  }

  /** Whatever hooks the ledger calls, every reserved amount, and so every
      frozen balance, stays as it was, and melted amounts only grow. */
  lemma {:induction false} HooksKeepFrozen(store: map<Key, FreezeData>, hooks: seq<HookCall>, id: AssetId, who: AccountId)
    ensures AfterHooks(store, hooks).Keys == store.Keys
    ensures DataOf(AfterHooks(store, hooks), id, who).reserved == DataOf(store, id, who).reserved
    ensures FrozenOf(AfterHooks(store, hooks), id, who) == FrozenOf(store, id, who)
    ensures DataOf(AfterHooks(store, hooks), id, who).melted >= DataOf(store, id, who).melted
    decreases |hooks|
  {
    if hooks != [] {
      var h := hooks[0];
      var store' := if h.Melted? then MeltIn(store, h.id, h.who, h.amount) else store;
      if h.Melted? {
        MeltKeepsReserved(store, h.id, h.who, h.amount, id, who);
      }
      HooksKeepFrozen(store', hooks[1..], id, who);
    }
  }

  /** `died` notifications alone leave the store as it was. */
  lemma {:induction false} DeathsChangeNothing(store: map<Key, FreezeData>, hooks: seq<HookCall>)
    requires forall j :: 0 <= j < |hooks| ==> hooks[j].Died?
    ensures AfterHooks(store, hooks) == store
    decreases |hooks|
  {
    if hooks != [] {
      DeathsChangeNothing(store, hooks[1..]);
    }
  }

  /** The engine's view of the world with this pallet as its freeze hook. */
  function EnvOf(store: map<Key, FreezeData>, providers: AccountId -> nat, consumerAvailable: AccountId -> bool,
                 canReserve: (AccountId, nat) -> bool): (env: Env)
    ensures forall id: AssetId, who: AccountId :: env.frozen(id, who) == FrozenOf(store, id, who)
  {
    Env((id, who) => FrozenOf(store, id, who), providers, consumerAvailable, canReserve)
  }

  /** `can_reserve`: the assets ledger's `can_withdraw`, that is
      `can_decrease` without keep-alive and respecting freezes, succeeds. */
  function CanReserve(s: State, env: Env, id: AssetId, who: AccountId, amount: Balance): (r: bool)
    // What stays behind covers the minimum and any freeze already in place.
    ensures r ==>
      && id in s.asset && amount <= BalanceOf(s, id, who)
      && BalanceOf(s, id, who) - amount >= s.asset[id].minBalance
      && (env.frozen(id, who).Some? ==> BalanceOf(s, id, who) - amount >= env.frozen(id, who).value + s.asset[id].minBalance)
  {
    CanDecrease(s, env, id, who, amount, false, Respect).0 == WithdrawConsequence.Success
  }

  /** An amount can be reserved exactly when the asset and the account are
      live and unfrozen, the amount is within the holder's funds and the
      supply, and what is left covers the minimum plus anything already
      frozen. */
  lemma CanReserveExactly(s: State, env: Env, id: AssetId, who: AccountId, amount: Balance)
    ensures CanReserve(s, env, id, who, amount) <==>
      && id in s.asset && amount <= s.asset[id].supply
      && !s.asset[id].isFrozen && !AccountOf(s, id, who).isFrozen
      && amount <= BalanceOf(s, id, who)
      && BalanceOf(s, id, who) - amount >= s.asset[id].minBalance
      && (env.frozen(id, who).Some? ==> BalanceOf(s, id, who) - amount >= env.frozen(id, who).value + s.asset[id].minBalance)
  {
    if id in s.asset && amount <= s.asset[id].supply && !s.asset[id].isFrozen && !AccountOf(s, id, who).isFrozen
       && amount <= BalanceOf(s, id, who) {
      var rest := BalanceOf(s, id, who) - amount;
      var f := env.frozen(id, who);
      if f.Some? && rest >= f.value + s.asset[id].minBalance {
        assert CheckedAdd(f.value, s.asset[id].minBalance) == Some(f.value + s.asset[id].minBalance);
      }
    }
  }

  /** The freezer pallet's storage. */
  class Pallet {
    var store: map<Key, FreezeData>

    /** `frozen_balance`, read from the store. */
    function FrozenBalance(id: AssetId, who: AccountId): (r: Option<Balance>)
      reads this
      ensures r.None? <==> (id, who) !in store || store[(id, who)].reserved == 0
      ensures r.Some? ==> r.value == store[(id, who)].reserved
    {
      FrozenOf(store, id, who)
    }

    /** `reserved_balance`: the stored reserved amount, zero without an entry. */
    function ReservedBalance(id: AssetId, who: AccountId): (r: Balance)
      reads this
      ensures r == 0 <==> FrozenBalance(id, who).None?
      ensures r > 0 ==> FrozenBalance(id, who) == Some(r)
    {
      DataOf(store, id, who).reserved
    }

    constructor ()
      ensures store == map[]
    {
      store := map[];
    }

    /** `melted`: adds `amount` to the entry's melted amount, saturating;
        the reserved amount is untouched, and a holder without an entry is
        not written. */
    method Melted(id: AssetId, who: AccountId, amount: Balance)
      modifies this
      ensures store == MeltIn(old(store), id, who, amount)
      ensures forall i: AssetId, w: AccountId :: ReservedBalance(i, w) == old(ReservedBalance(i, w))
    {
      var k := (id, who);
      if k in store {
        var f := store[k];
        store := store[k := f.(melted := SaturatingAdd(f.melted, amount))];
      }
      forall i: AssetId, w: AccountId
        ensures ReservedBalance(i, w) == old(ReservedBalance(i, w))
      {
        MeltKeepsReserved(old(store), id, who, amount, i, w);
      }
    }

    /** `died`: nothing to do yet. */
    method Died(id: AssetId, who: AccountId)
      ensures store == old(store)
    {
    }

    /** Receives the ledger's hook calls in the order they were made. */
    method Notify(hooks: seq<HookCall>)
      modifies this
      ensures store == AfterHooks(old(store), hooks)
    {
      var i := 0;
      while i < |hooks|
        invariant 0 <= i <= |hooks|
        invariant AfterHooks(store, hooks[i..]) == AfterHooks(old(store), hooks)
      {
        assert hooks[i..][1..] == hooks[i + 1..];
        match hooks[i] {
          case Melted(id, who, amount) => Melted(id, who, amount);
          case Died(id, who) => Died(id, who);
        }
        i := i + 1;
      }
      assert hooks[i..] == [];
    }
  }
}
