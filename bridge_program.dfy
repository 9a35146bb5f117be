/**
  The `bridge_state` account as the instruction handlers see it: an object whose fields
  they assign in place. Each handler is modelled as written, including the hash pushed
  before the overflow check of `mint_usdc`; `Process` adds what the Solana runtime does
  around a handler, discarding every write when the handler returns an error.
 */
module BridgeProgram {
  import opened BridgeTypes
  import opened BridgeSpec

  class BridgeAccount {
    var authority: Pubkey
    var nonce: U64
    var processedDeposits: seq<RustString>
    var totalMinted: U64
    var totalBurned: U64

    /** The account's data as a value. */
    function Snapshot(): State
      reads this
    {
      State(authority, nonce, processedDeposits, totalMinted, totalBurned)
    }

    /** `initialize`: the signer becomes the authority; every counter starts at zero. */
    constructor Initialize(signer: Pubkey)
      ensures authority == signer && nonce == 0 && totalMinted == 0 && totalBurned == 0
      ensures processedDeposits == []
      ensures Snapshot() == BridgeSpec.Initialize(signer)
    {
      authority := signer;
      nonce := 0;
      totalMinted := 0;
      totalBurned := 0;
      processedDeposits := [];
    }

    /**
      The `mint_usdc` handler. On `Ok` the account is the committed state of `MintUsdc`.
      On `Overflow` the hash has already been pushed and `total_minted` is unchanged:
      a partial write that only `Process` discards. Every other error is returned
      before any field is written.
     */
    method MintUsdcHandler(amount: U64, arbTxHash: RustString, token: TokenOutcome) returns (r: Result<()>)
      modifies this
      ensures r.Ok? <==> MintUsdc(old(Snapshot()), amount, arbTxHash, token).Ok?
      ensures r.Ok? ==> Snapshot() == MintUsdc(old(Snapshot()), amount, arbTxHash, token).value
      ensures r.Err? ==> r.error == MintUsdc(old(Snapshot()), amount, arbTxHash, token).error
      ensures r == Err(Bridge(Overflow)) ==>
                Snapshot() == old(Snapshot()).(processedDeposits := old(processedDeposits) + [arbTxHash])
      ensures r.Err? && r != Err(Bridge(Overflow)) ==> Snapshot() == old(Snapshot())
    {
      if amount == 0 {
        return Err(Bridge(InvalidAmount));
      }
      if |arbTxHash| == 0 {
        return Err(Bridge(InvalidTxHash));
      }
      if IsProcessed(processedDeposits, arbTxHash) {
        return Err(Bridge(AlreadyProcessed));
      }
      if token.TokenFailed? {
        return Err(Token(token.code));
      }
      processedDeposits := processedDeposits + [arbTxHash];
      var total := CheckedAdd(totalMinted, amount);
      if total.None? {
        return Err(Bridge(Overflow));
      }
      totalMinted := total.value;
      return Ok(());
    }

    /** The `burn_usdc` handler; it writes `total_burned` only once every check has passed. */
    method BurnUsdcHandler(amount: U64, arbAddress: RustString, token: TokenOutcome) returns (r: Result<()>)
      modifies this
      ensures r.Ok? <==> BurnUsdc(old(Snapshot()), amount, arbAddress, token).Ok?
      ensures r.Ok? ==> Snapshot() == BurnUsdc(old(Snapshot()), amount, arbAddress, token).value
      ensures r.Err? ==> r.error == BurnUsdc(old(Snapshot()), amount, arbAddress, token).error
      ensures r.Err? ==> Snapshot() == old(Snapshot())
    {
      if amount == 0 {
        return Err(Bridge(InvalidAmount));
      }
      if !StartsWith(arbAddress, ADDRESS_PREFIX) {
        return Err(Bridge(InvalidAddress));
      }
      if |arbAddress| != ADDRESS_LEN {
        return Err(Bridge(InvalidAddress));
      }
      if token.TokenFailed? {
        return Err(Token(token.code));
      }
      var total := CheckedAdd(totalBurned, amount);
      if total.None? {
        return Err(Bridge(Overflow));
      }
      totalBurned := total.value;
      return Ok(());
    }

    /** Puts back the account data saved before a failed instruction. */
    method Restore(saved: State)
      modifies this
      ensures Snapshot() == saved
    {
      authority, nonce, processedDeposits := saved.authority, saved.nonce, saved.processedDeposits;
      totalMinted, totalBurned := saved.totalMinted, saved.totalBurned;
    }

    /**
      One instruction as the runtime executes it: run the handler, and on an error
      throw away whatever it wrote, so the instruction commits fully or not at all.
     */
    method Process(ix: Instruction) returns (r: Result<()>)
      modifies this
      ensures r.Ok? <==> Step(old(Snapshot()), ix).Ok?
      ensures r.Err? ==> r.error == Step(old(Snapshot()), ix).error
      ensures Snapshot() == Commit(old(Snapshot()), Step(old(Snapshot()), ix))
      ensures r.Err? ==> Snapshot() == old(Snapshot())
    {
      var saved := Snapshot();
      match ix {
        case MintUsdcCall(amount, arbTxHash, token) =>
          r := MintUsdcHandler(amount, arbTxHash, token);
        case BurnUsdcCall(amount, arbAddress, token) =>
          r := BurnUsdcHandler(amount, arbAddress, token);
      }
      if r.Err? {
        Restore(saved);
      }
    }
  }
}
