# NLOV presale, modelled in Dafny

This project models the on-chain presale program `neurolov_presale`. The
program runs a fixed-supply token sale:

- participants pay lamports (the native currency) during a time window;
- each lamport buys 25 NLOV token units;
- the units bought are recorded per participant;
- three weeks after the window closes, each participant can claim everything they bought in one go;
- the owner can pause and unpause the sale, finalize it once the window is over, and then withdraw the collected lamports.

The model has five modules:

- `PresaleTypes` (types.dfy) holds the u64/i64 ranges, the `ErrorCode` enum, the host-level failures, and the two account records: `Presale` and `UserInfo`.
- `Custody` (custody.dfy) holds balances as maps from account to amount. Its `Transfer` moves value all or nothing, the way the system program and the token program do.
- `Ledger` (ledger.dfy) is the state machine on values:
  - the `State` of one sale: the sale account, the user accounts, the native vault, and lamport and token balances;
  - the invariant `Valid`;
  - one function per instruction, returning the next state or the error that aborts the transaction.
- `LedgerProperties` (ledger_properties.dfy) and `History` (history.dfy) prove what the instructions promise:
  - for each instruction, its guards in program order and the full effect of a success;
  - over any sequence of instructions: the invariant holds, the sale's terms stay fixed, counters only grow, and finalization is never undone.
- `NeurolovPresale` (program.dfy) holds the class `PresaleProgram`. Its fields are the sale account, the user accounts and the balances. It has one method per instruction, each updating the fields in place. Each method returns exactly what the `Ledger` function returns, and leaves exactly the state that function gives. On an error, the state is the old one.

The invariant `Ledger.Valid` has four parts:

- `start_time < end_time`, and `public_sale_end_time = end_time + 1_814_400`;
- `total_contributed <= presale_supply`;
- `total_contributed` equals the sum of `amount_contributed` over all user accounts;
- every user has `amount_claimed <= amount_contributed`, and each user account records its own key.

Where the program uses unchecked arithmetic, the model shows why it cannot go wrong, or models the failure explicitly:

- `presale_supply - total_contributed` (lib.rs:69) and `amount_contributed - amount_claimed` (lib.rs:115) cannot underflow under the invariant.
- The `+=` at lib.rs:73, 92 and 132 cannot overflow. Each stays within `presale_supply`, a u64. The model's u64 subset types make Dafny check this.
- The `+=` on the owner's lamports (lib.rs:199) and `end_time + 3 weeks` (lib.rs:34) are modelled as an `ArithmeticOverflow` failure that aborts the transaction. This assumes the program is built with overflow checks, as Anchor's workspace template sets.

Behaviours the model keeps as the code has them:

- The conversion is always `amount * 25`. The stored `token_price` is never read (`ContributeIgnoresTokenPrice`).
- Asking for more than the remaining supply fails with `InvalidAmount`. `ExceedsPresaleSupply` is declared but never returned (`ExceedsPresaleSupplyNeverRaised`).
- `contribute` and `claim_tokens` never read `is_active`. After finalization, contributions fail only because of the time window (`ContributeAfterFinalizeFails`).
- `contribute` writes `total_contributed` before the lamport transfer. The method does the same, and undoes the write when the transfer fails, as the host's rollback does.
- A participant who never contributed has no user account, so `claim_tokens` fails account validation (`AccountNotInitialized`) before any of its own guards. It does not fail with `NothingToClaim`.

The clock is a parameter: each instruction that reads it takes `now`. The caller's identity is a parameter too, and is taken as an already verified signer.

## Model

The seven instructions are modelled by the functions `Ledger.Initialize`, `Ledger.Contribute`, `Ledger.ClaimTokens`, `Ledger.Pause`, `Ledger.Unpause`, `Ledger.FinalizePresale` and `Ledger.Withdraw`. Their contracts are stated by the `LedgerProperties` lemmas in the rows below, one or more per function. The `PresaleProgram` methods are proved equal to those functions.

| member | source | states |
|---|---|---|
| `Custody.Transfer` | programs/nlov/src/lib.rs:76-87 | A transfer succeeds exactly when the source holds the amount and the destination stays within u64. On success the source loses the amount, the destination gains it, and every other balance is unchanged. |
| `LedgerProperties.InitializeResult` | programs/nlov/src/lib.rs:12-53 | `start_time >= end_time` fails with `InvalidTimeRange`. Success happens exactly when the account is new, the window is well formed, the cliff fits in i64 and the token transfer succeeds. The new record has every field as given, total 0, active, unpaused, owner = caller, and cliff = end + 1_814_400. Exactly `token_amount` tokens move from the owner's account into the vault; every account's balance changes by that formula, so nothing moves when the two accounts are the same. The invariant holds. |
| `LedgerProperties.ContributeGuards` | programs/nlov/src/lib.rs:55-71 | Errors come in program order: paused gives `PresalePaused` whatever the time or amount; then a time outside the inclusive window gives `PresaleNotActive`; then `amount * 25 > u64::MAX` gives `CalculationError`; then a token amount that is 0 or above `supply - total` gives `InvalidAmount`. Success happens exactly when all guards pass and the lamport transfer succeeds. |
| `LedgerProperties.ContributeEffect` | programs/nlov/src/lib.rs:66-92 | On success, the total and the caller's `amount_contributed` each grow by exactly `amount * 25`. `user` is set to the caller and `amount_claimed` is kept. Other user accounts are unchanged. Exactly `amount` lamports move from the caller to the vault, as a per-account formula that also covers a caller that is the vault itself (nothing moves). No other balance or token changes. `total <= supply` and the invariant, including total = sum over users, still hold. |
| `LedgerProperties.ContributeIgnoresTokenPrice` | programs/nlov/src/lib.rs:65-66 | Two sales that differ only in `token_price` accept and reject the same contributions, with the same effect. |
| `LedgerProperties.SecondContributionOverSupply` | programs/nlov/src/lib.rs:68-73 | After a successful contribution, a second one inside the window whose units would push the total past the supply fails with `InvalidAmount`. The total is then the first contribution's units only. |
| `LedgerProperties.ClaimTokensResult` | programs/nlov/src/lib.rs:103-140 | Paused gives `PresalePaused`. Otherwise `now <= public_sale_end_time` gives `ClaimingNotAvailable`, then contributed = claimed gives `NothingToClaim`. Success happens exactly when these pass and the token transfer succeeds. On success exactly `contributed - claimed` tokens move from the vault to the destination (a per-account formula, so a destination equal to the vault keeps its balance), the caller's claimed amount becomes their contributed amount, nothing else changes, and the invariant holds. |
| `LedgerProperties.ClaimWithoutAccount` | programs/nlov/src/lib.rs:252-257 | A caller with no user account gets `AccountNotInitialized`, whatever the time or pause flag, before any of the handler's own checks. |
| `LedgerProperties.SecondClaimFails` | programs/nlov/src/lib.rs:115-132 | Right after a successful claim, claiming again fails: with `NothingToClaim` past the cliff, otherwise with `ClaimingNotAvailable`. |
| `LedgerProperties.PauseResult` | programs/nlov/src/lib.rs:142-153 | A caller other than the owner gets `Unauthorized`. An already paused sale gives `AlreadyPaused`. Success happens exactly otherwise, and it sets only `is_paused` to true. |
| `LedgerProperties.UnpauseResult` | programs/nlov/src/lib.rs:155-166 | A caller other than the owner gets `Unauthorized`. A sale that is not paused gives `NotPaused`. Success happens exactly otherwise, and it sets only `is_paused` to false. |
| `LedgerProperties.FinalizePresaleResult` | programs/nlov/src/lib.rs:168-185 | A caller other than the owner gets `Unauthorized`. An inactive sale gives `PresaleAlreadyFinalized`. `now <= end_time` gives `PresaleStillActive`. Success happens exactly otherwise, and it sets only `is_active` to false. |
| `LedgerProperties.WithdrawResult` | programs/nlov/src/lib.rs:187-207 | A caller other than the owner gets `Unauthorized`. An active sale gives `PresaleStillActive`. An amount above the vault's lamports gives `InsufficientFunds`. Past these guards it fails only with `ArithmeticOverflow`, when the owner's balance would pass u64; success happens exactly otherwise. On success the vault loses exactly `amount` and the owner gains it (per account, so a vault that is the owner keeps its balance), and their sum is conserved. No other balance changes, and the sale record, user accounts and tokens are untouched. |
| `History.ApplyPreservesValid` | programs/nlov/src/lib.rs:8-208 | Every instruction keeps the invariant, whether it commits or fails: the window, the cliff, total <= supply, total = sum over users, and claimed <= contributed. |
| `History.ExceedsPresaleSupplyNeverRaised` | programs/nlov/src/lib.rs:359-360 | No instruction ever returns `ExceedsPresaleSupply`. |
| `History.Run` | programs/nlov/src/lib.rs:8-208 | Running any sequence of instructions, each committing or rolling back on its own, ends in a state that satisfies the invariant. |
| `History.RunEvolves` | programs/nlov/src/lib.rs:8-208 | Over any sequence of instructions, the sale's terms stay fixed and a finalized sale stays finalized. The sold total, and every user's contributed and claimed amounts, only grow. User accounts are never removed. |
| `History.FinalizedStaysFinalized` | programs/nlov/src/lib.rs:179 | Once `is_active` is false, no sequence of instructions makes it true again. |
| `History.ContributeAfterFinalizeFails` | programs/nlov/src/lib.rs:57-63 | After a successful finalize at time t, whatever instructions follow, any contribute at a time >= t fails, with `PresalePaused` or `PresaleNotActive`. |
| `NeurolovPresale.PresaleProgram.Initialize` | programs/nlov/src/lib.rs:12-53 | Updates the fields in place. It returns exactly the result of `Ledger.Initialize` and leaves exactly that function's state, or the old state on error. The invariant is kept. |
| `NeurolovPresale.PresaleProgram.Contribute` | programs/nlov/src/lib.rs:55-102 | The same for `Ledger.Contribute`. The total is written before the transfer and restored if the transfer fails. |
| `NeurolovPresale.PresaleProgram.ClaimTokens` | programs/nlov/src/lib.rs:103-140 | The same for `Ledger.ClaimTokens`. |
| `NeurolovPresale.PresaleProgram.Pause` | programs/nlov/src/lib.rs:142-153 | The same for `Ledger.Pause`. It may write only the sale account. |
| `NeurolovPresale.PresaleProgram.Unpause` | programs/nlov/src/lib.rs:155-166 | The same for `Ledger.Unpause`. It may write only the sale account. |
| `NeurolovPresale.PresaleProgram.FinalizePresale` | programs/nlov/src/lib.rs:168-185 | The same for `Ledger.FinalizePresale`. It may write only the sale account. |
| `NeurolovPresale.PresaleProgram.Withdraw` | programs/nlov/src/lib.rs:187-207 | The same for `Ledger.Withdraw`. It may write only the lamport balances; the sale account is read-only. |

## Left out

- Account validation is not modelled: the account structs, PDA seeds and bumps, account sizes, and the rent that `init` and `init_if_needed` charge. Only its outcome is kept: a missing sale or user account gives `AccountNotInitialized`, and a second `initialize` gives `AccountAlreadyInUse`.
- The source does not tie `presale_account` (in `Contribute` and `Withdraw`) or the token accounts of `ClaimTokens` to the sale. The model uses one fixed native vault, `nativeVault`, and the token vault stored in the sale record.
- The runtime rule that only an account's owning program may debit its lamports is not modelled, so the lamport debit in `withdraw` always succeeds in the model.
- Token-program checks are not modelled: that the mint matches, and who owns or may sign for each token account. A token account that does not exist is treated as holding nothing.
- Signatures are not checked: the caller is taken as an already verified signer.
- Events (`emit!`) are left out. They are informational and nothing reads them.
- The Pyth oracle code is left out. It is commented out, and its `PythError` and `InvalidPythPrice` variants are never raised, so they are not in `ErrorCode`.
- `Clock::get()` is replaced by the `now` parameter. The model does not assume the clock never goes backwards.
- Concurrency is left out. The host runs one instruction at a time on a sale.
- The test files are not modelled. They target other crates or instruction types, or the runtime's own behaviour.
