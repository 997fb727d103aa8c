/** The data model of the assets ledger: the per-asset record, the per-holder
    balance record, approvals, the destroy witness, the ledger's storage as a
    value, and the collaborators the engine consults (freeze hook, reference
    counter). */
module AssetTypes {
  import opened Tokens

  /** Identities are opaque comparable tokens. */
  type AssetId = nat
  type AccountId = nat

  /** Key of the balance map: `(asset, holder)`. */
  type Key = (AssetId, AccountId)

  /** `AssetDetails`: one per asset class. The deposit is a plain field of the
      reserving currency; its economics are not modelled. */
  datatype AssetDetails = AssetDetails(
    owner: AccountId,
    issuer: AccountId,
    admin: AccountId,
    freezer: AccountId,
    supply: Balance,
    deposit: nat,
    minBalance: Balance,
    isSufficient: bool,
    accounts: U32,
    sufficients: U32,
    approvals: U32,
    isFrozen: bool)

  /** `AssetBalance`: one per (asset, holder) with a non-zero balance. The
      opaque `extra` side-car payload is not modelled. */
  datatype AssetBalance = AssetBalance(balance: Balance, isFrozen: bool, sufficient: bool)

  /** What a read of an absent balance record yields (the map is a value
      query). */
  const DEFAULT_BALANCE := AssetBalance(0, false, false)

  /** `ApprovalKey`: the owner of the funds and the party allowed to move them. */
  datatype ApprovalKey = ApprovalKey(owner: AccountId, delegate: AccountId)

  /** `Approval`: the remaining allowance and the deposit held for it. */
  datatype Approval = Approval(amount: Balance, deposit: nat)

  /** What `unwrap_or_default` yields for a missing approval. */
  const DEFAULT_APPROVAL := Approval(0, 0)

  /** `DestroyWitness`: the counters a destroy call claims the asset has. */
  datatype DestroyWitness = DestroyWitness(accounts: U32, sufficients: U32, approvals: U32)

  /** Whether a freeze hook's frozen amount is honoured. */
  datatype RespectFrozen = Respect | Ignore

  /** Errors of the pallet itself (`Error<T>`), restricted to the ones the
      balance engine, approvals, freezing and destroy can raise. */
  datatype PalletError =
    | BalanceLow
    | BalanceZero
    | NoPermission
    | Unknown
    | Frozen
    | BadWitness
    | Overflow
    | NoProvider
    | Unapproved
    | WouldDie

  /** `DispatchError`, as far as it arises here: a pallet error or a token
      error converted from a consequence. */
  datatype DispatchError =
    | Module(pallet: PalletError)
    | Token(token: TokenError)
    | Reserve  // the currency could not reserve a deposit

  /** Per-holder reference counters of the system pallet, read as the
      references this ledger has placed: dependent ("consumer") references
      and self-sufficient references. A missing entry is zero. */
  datatype Refs = Refs(consumers: map<AccountId, nat>, sufficients: map<AccountId, nat>)

  function Count(m: map<AccountId, nat>, who: AccountId): nat
  {
    if who in m then m[who] else 0
  }

  function Inc(m: map<AccountId, nat>, who: AccountId): map<AccountId, nat>
  {
    m[who := Count(m, who) + 1]
  }

  /** Decrements saturate at zero, as the system pallet's do. */
  function Dec(m: map<AccountId, nat>, who: AccountId): map<AccountId, nat>
  {
    m[who := if Count(m, who) > 0 then Count(m, who) - 1 else 0]
  }

  /** The ledger's storage: the three maps of the pallet and the reference
      counters it drives. */
  datatype State = State(
    asset: map<AssetId, AssetDetails>,
    account: map<Key, AssetBalance>,
    approvals: map<(AssetId, ApprovalKey), Approval>,
    refs: Refs)

  /** Inputs from collaborators that the engine only queries: the freeze
      hook's `frozen_balance`, the system pallet's `providers(who)`,
      whether `inc_consumers(who)` would succeed, and whether the currency
      can reserve a given deposit from an account. */
  datatype Env = Env(
    frozen: (AssetId, AccountId) -> Option<Balance>,
    providers: AccountId -> nat,
    consumerAvailable: AccountId -> bool,
    canReserve: (AccountId, nat) -> bool)

  /** A call the engine makes on the freeze hook, in call order. */
  datatype HookCall = Melted(id: AssetId, who: AccountId, amount: Balance) | Died(id: AssetId, who: AccountId)

  /** The outcome of a successful state change: the new storage, the value
      the operation reports, and the freeze-hook calls it made. */
  datatype Step<+T> = Step(state: State, value: T, hooks: seq<HookCall>)

  /** `Account::get`: the record, or the default one when absent. */
  function AccountOf(s: State, id: AssetId, who: AccountId): AssetBalance
  {
    if (id, who) in s.account then s.account[(id, who)] else DEFAULT_BALANCE
  }

  function BalanceOf(s: State, id: AssetId, who: AccountId): Balance
  {
    AccountOf(s, id, who).balance
  }
}
