/** Machine types, identities, error codes and the two account records of the
    presale program (programs/nlov/src/lib.rs). */
module PresaleTypes {

  const U64_MAX: int := 0xFFFF_FFFF_FFFF_FFFF
  const I64_MIN: int := -0x8000_0000_0000_0000
  const I64_MAX: int := 0x7FFF_FFFF_FFFF_FFFF

  /** Rust `u64`: every amount, supply, price and balance. */
  type u64 = x: int | 0 <= x <= U64_MAX
  /** Rust `i64`: the Unix timestamps of the sale window and of the clock. */
  type i64 = x: int | I64_MIN <= x <= I64_MAX

  /** An account address (Solana `Pubkey`); only equality matters. */
  type Pubkey = nat

  /** Native-to-token conversion: every lamport buys 25 token units, whatever `token_price` says. */
  const FIXED_RATE: int := 25
  /** Three weeks in seconds: the claim cliff lies this long after `end_time`. */
  const CLAIM_DELAY: int := 3 * 7 * 24 * 60 * 60

  /** The program's own error codes. */
  datatype ErrorCode =
    | PresaleNotActive
    | InvalidAmount
    | Unauthorized
    | InvalidTimeRange
    | ExceedsPresaleSupply
    | ClaimingNotAvailable
    | NothingToClaim
    | PresalePaused
    | AlreadyPaused
    | NotPaused
    | PresaleStillActive
    | PresaleAlreadyFinalized
    | InsufficientFunds
    | CalculationError

  /** Why an instruction was rejected: one of the program's codes, or a failure
      raised by the host around it (account validation, a failed transfer in the
      system or token program, an arithmetic panic). Every one aborts the whole
      transaction. */
  datatype Error =
    | Program(code: ErrorCode)
    | AccountNotInitialized
    | AccountAlreadyInUse
    | TransferFailed
    | ArithmeticOverflow

  datatype Result<T> = Ok(value: T) | Err(error: Error)

  datatype Option<T> = None | Some(value: T)

  /** The singleton sale record. */
  datatype Presale = Presale(
    startTime: i64,
    endTime: i64,
    publicSaleEndTime: i64,
    tokenMint: Pubkey,
    presaleTokenAccount: Pubkey,
    presaleSupply: u64,
    tokenPrice: u64,
    totalContributed: u64,
    isActive: bool,
    isPaused: bool,
    owner: Pubkey)

  /** The per-participant record. */
  datatype UserInfo = UserInfo(user: Pubkey, amountContributed: u64, amountClaimed: u64)
}
