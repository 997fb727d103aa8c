/** Bounded integer arithmetic and the consequence types of the fungibles
    interface that the assets ledger reports: what a deposit or a withdrawal
    would do to an account, and how a consequence becomes an error. */
module Tokens {

  /** The balance type is an unsigned integer of fixed width; the model fixes
      it at 128 bits. */
  const MAX_BALANCE: nat := 0xffff_ffff_ffff_ffff_ffff_ffff_ffff_ffff
  type Balance = x: nat | x <= MAX_BALANCE

  /** Counters kept in an asset record are `u32`. */
  const MAX_U32: nat := 0xffff_ffff
  type U32 = x: nat | x <= MAX_U32

  datatype Option<+T> = None | Some(value: T)

  datatype Result<+T, +E> = Ok(value: T) | Err(error: E)

  /** `checked_add`: `None` on overflow. */
  function CheckedAdd(a: Balance, b: Balance): Option<Balance>
  {
    if a + b <= MAX_BALANCE then Some(a + b) else None
  }

  /** `checked_sub`: `None` on underflow. */
  function CheckedSub(a: Balance, b: Balance): Option<Balance>
  {
    if b <= a then Some(a - b) else None
  }

  /** `saturating_add`: clamps at the largest balance. */
  function SaturatingAdd(a: Balance, b: Balance): Balance
  {
    if a + b <= MAX_BALANCE then a + b else MAX_BALANCE
  }

  /** `saturating_sub`: clamps at zero. */
  function SaturatingSub(a: Balance, b: Balance): Balance
  {
    if b <= a then a - b else 0
  }

  function Min(a: Balance, b: Balance): Balance
  {
    if a <= b then a else b
  }

  /** `u32::checked_add(1)`. */
  function CheckedIncU32(x: U32): Option<U32>
  {
    if x < MAX_U32 then Some(x + 1) else None
  }

  /** `x += 1` on a `u32` in a release build: wraps to zero past the top. */
  function WrappingIncU32(x: U32): U32
  {
    if x < MAX_U32 then x + 1 else 0
  }

  /** `u32::saturating_sub(1)`. */
  function SaturatingDecU32(x: U32): U32
  {
    if x > 0 then x - 1 else 0
  }

  /** Token-level errors (`TokenError` of the runtime, whose arithmetic
      variants stood for underflow and overflow). */
  datatype TokenError =
    | NoFunds
    | WouldDie
    | BelowMinimum
    | CannotCreate
    | UnknownAsset
    | Frozen
    | Underflow
    | Overflow

  /** What would happen if some amount were deposited into an account. */
  datatype DepositConsequence =
    | BelowMinimum
    | CannotCreate
    | UnknownAsset
    | Overflow
    | Success
  {
    /** `into_result`: every consequence but `Success` is the token error of
        the same name. */
    function IntoResult(): (r: Result<(), TokenError>)
      ensures r.Ok? <==> this == DepositConsequence.Success
    {
      match this
      case BelowMinimum => Err(TokenError.BelowMinimum)
      case CannotCreate => Err(TokenError.CannotCreate)
      case UnknownAsset => Err(TokenError.UnknownAsset)
      case Overflow => Err(TokenError.Overflow)
      case Success => Ok(())
    }
  }

  /** What would happen if some amount were withdrawn from an account.
      `ReducedToZero(dust)` is a success after which the account is emptied:
      `dust` must be taken as well. */
  datatype WithdrawConsequence =
    | NoFunds
    | WouldDie
    | UnknownAsset
    | Underflow
    | Overflow
    | Frozen
    | ReducedToZero(dust: Balance)
    | Success
  {
    /** `into_result`: the extra amount to debit on success (the dust, or
        zero), the token error of the same name otherwise. */
    function IntoResult(): (r: Result<Balance, TokenError>)
      ensures r.Ok? <==> (this.ReducedToZero? || this == WithdrawConsequence.Success)
      ensures this.ReducedToZero? ==> r == Ok(this.dust)
      ensures this == WithdrawConsequence.Success ==> r == Ok(0)
    {
      match this
      case NoFunds => Err(TokenError.NoFunds)
      case WouldDie => Err(TokenError.WouldDie)
      case UnknownAsset => Err(TokenError.UnknownAsset)
      case Underflow => Err(TokenError.Underflow)
      case Overflow => Err(TokenError.Overflow)
      case Frozen => Err(TokenError.Frozen)
      case ReducedToZero(dust) => Ok(dust)
      case Success => Ok(0)
    }
  }
}
