/**
  The bridge program's account state and the committed effect of each instruction,
  as pure functions of the state before it.

  An instruction either returns `Ok` with the new state or `Err`; the Solana runtime
  keeps the writes of an instruction only when it returns `Ok` (`Commit`), so a failed
  instruction has no effect on the account however far its handler got.
 */
module BridgeSpec {
  import opened BridgeTypes

  /**
    Byte budget reserved for the account: the authority key, the nonce, room for a
    hundred 64-byte hashes and the two counters. No instruction checks it.
   */
  const SPACE: nat := 32 + 8 + (4 + 64 * 100) + 8 + 8

  /** The `BridgeState` account. */
  datatype State = State(
    authority: Pubkey,
    nonce: U64,
    processedDeposits: seq<RustString>,
    totalMinted: U64,
    totalBurned: U64)

  /** The account right after `initialize` by `signer`: Anchor's `init` creates it zeroed, so no hash is recorded. */
  function Initialize(signer: Pubkey): State
  {
    State(signer, 0, [], 0, 0)
  }

  /** `"0x"` */
  const ADDRESS_PREFIX: RustString := [0x30, 0x78]

  /** Length in bytes of an accepted Arbitrum address. */
  const ADDRESS_LEN: nat := 42

  /** The address check of `burn_usdc`: a `"0x"` prefix and 42 bytes; the remaining bytes are not inspected. */
  predicate ValidArbAddress(arbAddress: RustString)
  {
    StartsWith(arbAddress, ADDRESS_PREFIX) && |arbAddress| == ADDRESS_LEN
  }

  /**
    `mint_usdc(amount, arb_tx_hash)`: the deposit leg. The checks run in the order
    amount, hash, replay guard, token `mint_to`, counter overflow; the first that fails
    decides the error.
   */
  function MintUsdc(s: State, amount: U64, arbTxHash: RustString, token: TokenOutcome): (r: Result<State>)
    ensures amount == 0 ==> r == Err(Bridge(InvalidAmount))
    ensures amount > 0 && arbTxHash == [] ==> r == Err(Bridge(InvalidTxHash))
    ensures amount > 0 && arbTxHash != [] && arbTxHash in s.processedDeposits ==> r == Err(Bridge(AlreadyProcessed))
    ensures amount > 0 && arbTxHash != [] && arbTxHash !in s.processedDeposits && token.TokenFailed? ==>
              r == Err(Token(token.code))
    ensures r.Err? && r.error.Token? ==> token == TokenFailed(r.error.code)
    ensures r == Err(Bridge(Overflow)) <==>
              amount > 0 && arbTxHash != [] && arbTxHash !in s.processedDeposits && token == TokenOk
              && s.totalMinted + amount > U64_MAX
    ensures r.Ok? <==>
              amount > 0 && arbTxHash != [] && arbTxHash !in s.processedDeposits && token == TokenOk
              && s.totalMinted + amount <= U64_MAX
    ensures r.Ok? ==>
              && r.value.processedDeposits == s.processedDeposits + [arbTxHash]
              && r.value.totalMinted == s.totalMinted + amount
              && r.value.totalBurned == s.totalBurned
              && r.value.authority == s.authority
              && r.value.nonce == s.nonce
  {
    if amount == 0 then Err(Bridge(InvalidAmount))
    else if |arbTxHash| == 0 then Err(Bridge(InvalidTxHash))
    else if IsProcessed(s.processedDeposits, arbTxHash) then Err(Bridge(AlreadyProcessed))
    else if token.TokenFailed? then Err(Token(token.code))
    else
      match CheckedAdd(s.totalMinted, amount)
      case None => Err(Bridge(Overflow))
      case Some(total) => Ok(s.(processedDeposits := s.processedDeposits + [arbTxHash], totalMinted := total))
  }

  /**
    `burn_usdc(amount, arb_address)`: the withdrawal request. The checks run in the
    order amount, `"0x"` prefix, length, token `burn`, counter overflow.
   */
  function BurnUsdc(s: State, amount: U64, arbAddress: RustString, token: TokenOutcome): (r: Result<State>)
    ensures amount == 0 ==> r == Err(Bridge(InvalidAmount))
    ensures amount > 0 && !ValidArbAddress(arbAddress) ==> r == Err(Bridge(InvalidAddress))
    ensures amount > 0 && ValidArbAddress(arbAddress) && token.TokenFailed? ==> r == Err(Token(token.code))
    ensures r.Err? && r.error.Token? ==> token == TokenFailed(r.error.code)
    ensures r == Err(Bridge(Overflow)) <==>
              amount > 0 && ValidArbAddress(arbAddress) && token == TokenOk && s.totalBurned + amount > U64_MAX
    ensures r.Ok? <==>
              amount > 0 && ValidArbAddress(arbAddress) && token == TokenOk && s.totalBurned + amount <= U64_MAX
    ensures r.Ok? ==>
              && r.value.totalBurned == s.totalBurned + amount
              && r.value.processedDeposits == s.processedDeposits
              && r.value.totalMinted == s.totalMinted
              && r.value.authority == s.authority
              && r.value.nonce == s.nonce
  {
    if amount == 0 then Err(Bridge(InvalidAmount))
    else if !StartsWith(arbAddress, ADDRESS_PREFIX) then Err(Bridge(InvalidAddress))
    else if |arbAddress| != ADDRESS_LEN then Err(Bridge(InvalidAddress))
    else if token.TokenFailed? then Err(Token(token.code))
    else
      match CheckedAdd(s.totalBurned, amount)
      case None => Err(Bridge(Overflow))
      case Some(total) => Ok(s.(totalBurned := total))
  }

  /** One call of an instruction on an existing account, with the token program's answer to its CPI. */
  datatype Instruction =
    | MintUsdcCall(amount: U64, arbTxHash: RustString, token: TokenOutcome)
    | BurnUsdcCall(amount: U64, arbAddress: RustString, token: TokenOutcome)

  function Step(s: State, ix: Instruction): Result<State>
  {
    match ix
    case MintUsdcCall(amount, arbTxHash, token) => MintUsdc(s, amount, arbTxHash, token)
    case BurnUsdcCall(amount, arbAddress, token) => BurnUsdc(s, amount, arbAddress, token)
  }

  /** The runtime keeps an instruction's writes only when it returns `Ok`. */
  function Commit(s: State, r: Result<State>): State
  {
    if r.Ok? then r.value else s
  }

  /** The account after the ledger has executed `ixs` one after the other. */
  function Run(s: State, ixs: seq<Instruction>): State
    decreases |ixs|
  {
    if ixs == [] then s else Run(Commit(s, Step(s, ixs[0])), ixs[1..])
  }

  /** A deposit the bridge accepted: the Arbitrum hash and the amount minted for it. */
  datatype Deposit = Deposit(arbTxHash: RustString, amount: U64)

  /** The deposits minted, in order, while executing `ixs` from `s`. */
  function Minted(s: State, ixs: seq<Instruction>): seq<Deposit>
    decreases |ixs|
  {
    if ixs == [] then []
    else
      var r := Step(s, ixs[0]);
      (if r.Ok? && ixs[0].MintUsdcCall? then [Deposit(ixs[0].arbTxHash, ixs[0].amount)] else [])
      + Minted(Commit(s, r), ixs[1..])
  }

  /** The amounts burned, in order, while executing `ixs` from `s`. */
  function Burned(s: State, ixs: seq<Instruction>): seq<U64>
    decreases |ixs|
  {
    if ixs == [] then []
    else
      var r := Step(s, ixs[0]);
      (if r.Ok? && ixs[0].BurnUsdcCall? then [ixs[0].amount] else [])
      + Burned(Commit(s, r), ixs[1..])
  }

  function Hashes(ds: seq<Deposit>): seq<RustString>
  {
    if ds == [] then [] else [ds[0].arbTxHash] + Hashes(ds[1..])
  }

  function DepositTotal(ds: seq<Deposit>): nat
  {
    if ds == [] then 0 else ds[0].amount + DepositTotal(ds[1..])
  }

  function Sum(xs: seq<U64>): nat
  {
    if xs == [] then 0 else xs[0] + Sum(xs[1..])
  }
}
