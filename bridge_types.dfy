/**
  Machine types and error values of the bridge program: Rust's `u64`, the bytes of
  a Rust `String`, Solana public keys, the `BridgeError` enum, the outcome of a call
  into the SPL token program, and the `is_processed` replay lookup.
 */
module BridgeTypes {

  const U64_MAX: int := 0xFFFF_FFFF_FFFF_FFFF

  /** Rust `u64`. */
  type U64 = x: int | 0 <= x <= U64_MAX

  type Byte = b: int | 0 <= b < 0x100

  /** A Rust `String`, as the UTF-8 bytes it holds: `len()` and `is_empty()` count bytes. */
  type RustString = seq<Byte>

  /** A Solana `Pubkey`: 32 bytes. */
  type Pubkey = k: seq<Byte> | |k| == 32 witness seq(32, i => 0)

  datatype Option<T> = None | Some(value: T)

  /** `u64::checked_add`: `None` exactly when the sum does not fit in 64 bits. */
  function CheckedAdd(a: U64, b: U64): Option<U64>
  {
    if a + b <= U64_MAX then Some(a + b) else None
  }

  /** The program's own error enum, in declaration order. */
  datatype BridgeError = AlreadyProcessed | InvalidAmount | InvalidAddress | InvalidTxHash | Overflow

  /**
    Anchor's `#[error_code]` numbers the variants from 6000 upwards in declaration
    order; this is the code a client sees in the failed transaction.
   */
  function ErrorCode(e: BridgeError): (code: nat)
    ensures 6000 <= code < 6005
  {
    match e
    case AlreadyProcessed => 6000
    case InvalidAmount => 6001
    case InvalidAddress => 6002
    case InvalidTxHash => 6003
    case Overflow => 6004
  }

  lemma ErrorCodesDistinct(e1: BridgeError, e2: BridgeError)
    ensures ErrorCode(e1) == ErrorCode(e2) <==> e1 == e2
  {
  }

  /**
    What the SPL token program answers to a `mint_to` or `burn` cross-program call.
    The token program is not part of this model; only whether it accepted the call matters.
   */
  datatype TokenOutcome = TokenOk | TokenFailed(code: nat)

  /** An instruction fails with one of the program's own errors or with the token program's error, propagated by `?`. */
  datatype ProgramError = Bridge(err: BridgeError) | Token(code: nat)

  datatype Result<T> = Ok(value: T) | Err(error: ProgramError)

  /**
    `BridgeState::is_processed`: `Vec::contains` on the processed hashes, a front-to-back
    scan comparing whole strings.
   */
  function IsProcessed(processedDeposits: seq<RustString>, txHash: RustString): (found: bool)
    ensures found <==> txHash in processedDeposits
  {
    if processedDeposits == [] then false
    else processedDeposits[0] == txHash || IsProcessed(processedDeposits[1..], txHash)
  }

  /** `str::starts_with` on bytes. */
  predicate StartsWith(s: RustString, prefix: RustString)
  {
    |prefix| <= |s| && s[..|prefix|] == prefix
  }
}
