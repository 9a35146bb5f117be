/**
  What the bridge program guarantees over any sequence of instructions: the replay
  guard admits each Arbitrum hash at most once, recorded hashes are never lost, and
  the counters account for exactly the accepted mints and burns.
 */
module BridgeProperties {
  import opened BridgeTypes
  import opened BridgeSpec

  ghost predicate NoDuplicates(hashes: seq<RustString>)
  {
    forall i, j :: 0 <= i < j < |hashes| ==> hashes[i] != hashes[j]
  }

  /** What every reachable account satisfies: distinct, non-empty recorded hashes. */
  ghost predicate Valid(s: State)
  {
    && NoDuplicates(s.processedDeposits)
    && forall i :: 0 <= i < |s.processedDeposits| ==> s.processedDeposits[i] != []
  }

  lemma InitializeValid(signer: Pubkey)
    ensures Valid(Initialize(signer))
    ensures Initialize(signer).authority == signer
    ensures Initialize(signer).nonce == 0 && Initialize(signer).processedDeposits == []
    ensures Initialize(signer).totalMinted == 0 && Initialize(signer).totalBurned == 0
  {
  }

  lemma StepPreservesValid(s: State, ix: Instruction)
    requires Valid(s)
    ensures Valid(Commit(s, Step(s, ix)))
  {
  }

  lemma {:induction false} RunPreservesValid(s: State, ixs: seq<Instruction>)
    requires Valid(s)
    ensures Valid(Run(s, ixs))
    decreases |ixs|
  {
    if ixs != [] {
      StepPreservesValid(s, ixs[0]);
      RunPreservesValid(Commit(s, Step(s, ixs[0])), ixs[1..]);
    }
  }

  /**
    The counters and the hash list account for exactly what was accepted: the hashes
    are those already there followed by the accepted deposits' hashes, `total_minted`
    grows by the deposits' amounts and `total_burned` by the accepted burns; the
    authority and the nonce never change.
   */
  lemma {:induction false} RunAccounting(s: State, ixs: seq<Instruction>)
    ensures Run(s, ixs).processedDeposits == s.processedDeposits + Hashes(Minted(s, ixs))
    ensures Run(s, ixs).totalMinted == s.totalMinted + DepositTotal(Minted(s, ixs))
    ensures Run(s, ixs).totalBurned == s.totalBurned + Sum(Burned(s, ixs))
    ensures Run(s, ixs).authority == s.authority && Run(s, ixs).nonce == s.nonce
    decreases |ixs|
  {
    if ixs != [] {
      var r := Step(s, ixs[0]);
      var next := Commit(s, r);
      var rest := Minted(next, ixs[1..]);
      var restBurned := Burned(next, ixs[1..]);
      RunAccounting(next, ixs[1..]);
      if r.Ok? && ixs[0].MintUsdcCall? {
        var d := Deposit(ixs[0].arbTxHash, ixs[0].amount);
        assert Minted(s, ixs) == [d] + rest;
        assert ([d] + rest)[1..] == rest;
        assert Burned(s, ixs) == restBurned;
      } else if r.Ok? {
        assert Minted(s, ixs) == rest;
        assert Burned(s, ixs) == [ixs[0].amount] + restBurned;
        assert ([ixs[0].amount] + restBurned)[1..] == restBurned;
      } else {
        assert Minted(s, ixs) == rest;
        assert Burned(s, ixs) == restBurned;
      }
    }
  }

  /** A recorded hash stays recorded: the list is only ever appended to. */
  lemma ProcessedNeverRemoved(s: State, ixs: seq<Instruction>)
    ensures s.processedDeposits <= Run(s, ixs).processedDeposits
  {
    RunAccounting(s, ixs);
  }

  /**
    Replay protection over a whole run: from a valid account, the deposits minted in a
    run carry pairwise distinct hashes, none of which had been processed before.
   */
  lemma DepositsMintedAtMostOnce(s: State, ixs: seq<Instruction>)
    requires Valid(s)
    ensures NoDuplicates(Hashes(Minted(s, ixs)))
    ensures forall i :: 0 <= i < |Hashes(Minted(s, ixs))| ==> Hashes(Minted(s, ixs))[i] !in s.processedDeposits
  {
    RunAccounting(s, ixs);
    RunPreservesValid(s, ixs);
    var old_ := s.processedDeposits;
    var hs := Hashes(Minted(s, ixs));
    var all := Run(s, ixs).processedDeposits;
    assert all == old_ + hs;
    forall i, j | 0 <= i < j < |hs|
      ensures hs[i] != hs[j]
    {
      assert all[|old_| + i] == hs[i] && all[|old_| + j] == hs[j];
    }
    forall i | 0 <= i < |hs|
      ensures hs[i] !in old_
    {
      forall k | 0 <= k < |old_|
        ensures old_[k] != hs[i]
      {
        assert all[k] == old_[k] && all[|old_| + i] == hs[i];
      }
    }
  }

  /** From a freshly initialised account, no Arbitrum hash is ever minted for twice. */
  lemma EachDepositMintedOnce(signer: Pubkey, ixs: seq<Instruction>)
    ensures NoDuplicates(Hashes(Minted(Initialize(signer), ixs)))
    ensures Run(Initialize(signer), ixs).totalMinted == DepositTotal(Minted(Initialize(signer), ixs))
    ensures Run(Initialize(signer), ixs).totalBurned == Sum(Burned(Initialize(signer), ixs))
  {
    InitializeValid(signer);
    DepositsMintedAtMostOnce(Initialize(signer), ixs);
    RunAccounting(Initialize(signer), ixs);
  }

  /**
    Once a hash is recorded, every later `mint_usdc` with it fails, whatever happened
    in between: with `AlreadyProcessed`, or with `InvalidAmount` when the amount is 0
    (that check comes first).
   */
  lemma ReplayRejected(s: State, ixs: seq<Instruction>, arbTxHash: RustString, amount: U64, token: TokenOutcome)
    requires arbTxHash in s.processedDeposits && arbTxHash != []
    ensures MintUsdc(Run(s, ixs), amount, arbTxHash, token)
            == Err(Bridge(if amount == 0 then InvalidAmount else AlreadyProcessed))
  {
    ProcessedNeverRemoved(s, ixs);
    var k :| 0 <= k < |s.processedDeposits| && s.processedDeposits[k] == arbTxHash;
    assert Run(s, ixs).processedDeposits[k] == arbTxHash;
  }

  /** After a successful deposit for `arbTxHash`, no later deposit for it can succeed. */
  lemma MintThenReplayFails(s: State, amount: U64, arbTxHash: RustString, token: TokenOutcome,
                            ixs: seq<Instruction>, amount': U64, token': TokenOutcome)
    requires MintUsdc(s, amount, arbTxHash, token).Ok?
    ensures !MintUsdc(Run(MintUsdc(s, amount, arbTxHash, token).value, ixs), amount', arbTxHash, token').Ok?
    ensures amount' > 0 ==>
              MintUsdc(Run(MintUsdc(s, amount, arbTxHash, token).value, ixs), amount', arbTxHash, token')
              == Err(Bridge(AlreadyProcessed))
  {
    var after := MintUsdc(s, amount, arbTxHash, token).value;
    assert after.processedDeposits[|s.processedDeposits|] == arbTxHash;
    ReplayRejected(after, ixs, arbTxHash, amount', token');
  }

  /**
    The address check looks only at the prefix and the length: any 40 bytes after
    `"0x"`, hexadecimal or not, are accepted as an Arbitrum address.
   */
  lemma AnyFortyBytesAfterPrefixAccepted(s: State, amount: U64, tail: RustString)
    requires amount > 0 && |tail| == 40 && s.totalBurned + amount <= U64_MAX
    ensures BurnUsdc(s, amount, ADDRESS_PREFIX + tail, TokenOk).Ok?
  {
  }

  /** The address check accepts exactly the 42-byte strings whose first two bytes are `'0'` and `'x'`. */
  lemma AddressCheckIsPrefixAndLength(arbAddress: RustString)
    ensures ValidArbAddress(arbAddress) <==>
              |arbAddress| == 42 && arbAddress[0] == 0x30 && arbAddress[1] == 0x78
  {
  }
}
