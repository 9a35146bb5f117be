# Bridge program model

A Dafny model of the Solana side of the 1024 USDC bridge: the Anchor program in
`programs/bridge/src/lib.rs`. The program keeps one `BridgeState` account. That account
holds the authority key, a nonce, the list of Arbitrum transaction hashes already
settled, and two `u64` counters, `total_minted` and `total_burned`. Three instructions
change it:

- `initialize` creates the account.
- `mint_usdc` is the deposit leg. A relayer calls it with an Arbitrum transaction hash.
  It mints USDC to the user and records the hash, so the same deposit cannot be minted twice.
- `burn_usdc` is the withdrawal request. It burns the user's USDC and counts the amount.

Files:

- `bridge_types.dfy` (module `BridgeTypes`) holds `u64`, the bytes of a Rust `String`,
  `Pubkey`, `BridgeError` with its Anchor error codes, and the token program's answer to a
  cross-program call. It also holds the `is_processed` scan.
- `bridge_spec.dfy` (module `BridgeSpec`) holds the account as a value `State` and the
  committed effect of each instruction as a pure function (`MintUsdc`, `BurnUsdc`).
  `Commit` is the runtime rule that a failed instruction leaves no trace. `Run` executes
  a sequence of instructions, each committed on its own as if sent in its own
  transaction; in a transaction holding several instructions a later failure also
  rolls back the earlier ones, which reaches no state that `Run` cannot reach.
  `Minted` and `Burned` list what a run accepted.
- `bridge_program.dfy` (module `BridgeProgram`) holds the class `BridgeAccount`, whose
  handlers assign the account's fields in place as the Rust code does. This includes the
  hash pushed before the overflow check in `mint_usdc`. `Process` wraps a handler the way
  the Solana runtime does: it discards all writes when the handler returns an error.
- `bridge_properties.dfy` (module `BridgeProperties`) holds the invariant of reachable
  accounts and the replay, persistence and accounting properties over arbitrary runs.

Modelling choices:

- A Rust `String` is modelled as its UTF-8 bytes, because `len()` and `is_empty()` count
  bytes. The `"0x"` prefix is the bytes `0x30 0x78`.
- The SPL token program's `mint_to` and `burn` are not modelled. Each instruction takes
  a `TokenOutcome` parameter: the token program's answer. A failure is propagated as
  `ProgramError.Token(code)`, as `?` does.
- The EVM contract exercised by `test/1024Bridge.test.js` has relayer roles, a pause
  switch and per-transaction limits. The Rust program has none of these, and the model
  follows the program. `mint_usdc` checks no caller. `authority` is stored but
  never read. `nonce` never changes after `initialize`.

## Model

| member | source | states |
|---|---|---|
| `BridgeTypes.IsProcessed` | programs/bridge/src/lib.rs:202-204 | the scan of the recorded hashes finds `tx_hash` exactly when it is a member of the list |
| `BridgeTypes.ErrorCode` | programs/bridge/src/lib.rs:211-227 | each `BridgeError` variant has an Anchor error code in 6000..6004 |
| `BridgeTypes.ErrorCodesDistinct` | programs/bridge/src/lib.rs:211-227 | two variants share an error code only if they are the same variant |
| `BridgeProgram.BridgeAccount.Initialize` | programs/bridge/src/lib.rs:17-26 | `initialize` makes the signer the authority; nonce, both counters and the hash list start at zero or empty |
| `BridgeProperties.InitializeValid` | programs/bridge/src/lib.rs:17-22 | the freshly initialised account has the given authority and zero counters, and satisfies the invariant |
| `BridgeSpec.MintUsdc` | programs/bridge/src/lib.rs:30-70 | zero amount fails `InvalidAmount`; otherwise an empty hash fails `InvalidTxHash`; otherwise a recorded hash fails `AlreadyProcessed`; a failed `mint_to` after those checks returns the token program's error; a `total_minted` overflow fails `Overflow`. It succeeds exactly when none of these applies. Success appends the hash once and adds `amount` to `total_minted`; `total_burned`, authority and nonce are untouched |
| `BridgeSpec.BurnUsdc` | programs/bridge/src/lib.rs:74-109 | zero amount fails `InvalidAmount`; an address without the `"0x"` prefix or not 42 bytes long fails `InvalidAddress`; a failed `burn` after those checks returns the token program's error; a `total_burned` overflow fails `Overflow`. It succeeds exactly when none applies. Success adds `amount` to `total_burned` and leaves the hash list, `total_minted`, authority and nonce unchanged |
| `BridgeProgram.BridgeAccount.MintUsdcHandler` | programs/bridge/src/lib.rs:30-70 | the handler returns what `MintUsdc` decides. On success the account is `MintUsdc`'s new state. On `Overflow` the hash is already pushed and `total_minted` is unchanged. On any other error nothing was written |
| `BridgeProgram.BridgeAccount.BurnUsdcHandler` | programs/bridge/src/lib.rs:74-109 | the handler returns what `BurnUsdc` decides; on success the account is `BurnUsdc`'s new state; on any error nothing was written |
| `BridgeProgram.BridgeAccount.Process` | programs/bridge/src/lib.rs:56-61 | an instruction commits fully or not at all. On error the account is exactly as before, including the hash that `mint_usdc` pushed before its overflow check |
| `BridgeProperties.StepPreservesValid` | programs/bridge/src/lib.rs:41-59 | every instruction keeps the recorded hashes distinct and non-empty |
| `BridgeProperties.RunPreservesValid` | programs/bridge/src/lib.rs:41-59 | any sequence of instructions keeps the recorded hashes distinct and non-empty |
| `BridgeProperties.RunAccounting` | programs/bridge/src/lib.rs:59-99 | after any run, the hash list is the old list followed by the hashes of the accepted deposits. `total_minted` grew by exactly their amounts and `total_burned` by exactly the accepted burns. Authority and nonce are unchanged |
| `BridgeProperties.ProcessedNeverRemoved` | programs/bridge/src/lib.rs:59 | the old hash list is a prefix of the list after any run: a processed hash is never removed |
| `BridgeProperties.DepositsMintedAtMostOnce` | programs/bridge/src/lib.rs:41-44 | the deposits a run accepts carry pairwise distinct hashes, none of them processed before the run |
| `BridgeProperties.EachDepositMintedOnce` | programs/bridge/src/lib.rs:17-61 | from a fresh account, no hash is ever minted for twice. `total_minted` is the sum of the accepted deposits and `total_burned` the sum of the accepted burns |
| `BridgeProperties.ReplayRejected` | programs/bridge/src/lib.rs:35-44 | after any run, `mint_usdc` with an already-recorded hash fails: `AlreadyProcessed`, or `InvalidAmount` for amount 0 |
| `BridgeProperties.MintThenReplayFails` | programs/bridge/src/lib.rs:41-59 | after a successful mint for a hash, every later mint with that hash fails, with `AlreadyProcessed` whenever the amount is positive |
| `BridgeProperties.AnyFortyBytesAfterPrefixAccepted` | programs/bridge/src/lib.rs:80-81 | no hex-digit check: `"0x"` followed by any 40 bytes passes the address check and the burn succeeds |
| `BridgeProperties.AddressCheckIsPrefixAndLength` | programs/bridge/src/lib.rs:80-81 | the address check accepts exactly the 42-byte strings that begin with `'0'`, `'x'` |

## Left out

- Token cross-program calls `token::mint_to` and `token::burn` (programs/bridge/src/lib.rs:47-56, 86-95): foreign calls into the SPL token program. They appear only as their outcome, a parameter. Token supply and user balances are not modelled.
- Anchor account plumbing (programs/bridge/src/lib.rs:117-180): account contexts, PDA seeds and bumps, signer and mutability constraints, rent and payer. These are framework validation. In particular, `init` rejects a second `initialize` of the same account; the model has only the constructor that creates the account.
- `SPACE` (programs/bridge/src/lib.rs:196-200) is kept as a constant only. No instruction checks it. The account fails to serialise once the hash list outgrows it, and the model does not capture that: its hash list is unbounded.
- `msg!` logging (programs/bridge/src/lib.rs:24, 63-67, 102-106) is side output only. This includes the `WITHDRAW:` line that the relayer parses.
- UTF-8 validity of `String` values is not enforced. Any byte sequence is admitted as a hash or address.
- The off-chain scripts `create-usdc.js`, `manual-mint.js` and `scripts/deploy.js` are not part of this model. They do RPC, key files and console I/O.
- The EVM contract exercised by `test/1024Bridge.test.js` is a separate program and is not part of this model. That covers lock and unlock, roles, pause, limits and staking.
