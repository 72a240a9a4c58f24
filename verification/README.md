# Escrow program — a Dafny model

This project models the on-chain part of a lamport escrow written with Anchor for Solana. A depositor locks lamports for a named recipient in an escrow account. The account's address is derived from `("escrow", depositor key, escrow_id as 8 little-endian bytes)`. Later, one of two things happens:

- the recipient claims the lamports, or
- the depositor cancels and takes them back.

Either way the escrow account is closed.

The model is a functional state machine over an immutable `Ledger`. The ledger holds two maps:

- escrow records by address;
- lamport balances by address. An absent address holds 0.

The three instructions are pure functions that return `Result<Ledger>`. `Program.Step` applies a transaction all-or-nothing: a refused transaction leaves the ledger unchanged.

Files and modules:

- `bytes.dfy` (`Bytes`): the fixed-width integers `u8`, `u64` and `i64`, and their little-endian encodings.
- `errors.dfy` (`Errors`): the program's `EscrowError` enum with its Anchor codes (6000–6003) and messages. It also holds the framework and runtime failures that the instructions can end in, and the `Result` type.
- `state.rs` is modelled in `state.dfy` (`State`). It covers:
  - the `Escrow` record;
  - `LEN = 97`;
  - `SEED_PREFIX = "escrow"`;
  - the persisted layout: an 8-byte account discriminator, then the six fields at their declared widths, in declaration order.
- `ledger.dfy` (`Ledger`): addresses, program-address derivation, balances and the lamport total. It also has the two lamport primitives every instruction is built from:
  - `MoveLamports`: a checked debit and credit;
  - `CloseAccount`: Anchor's `close = …`.
- `invariant.dfy` (`Invariant`): the ledger invariant `Valid`. Each record sits at the address derived from its own depositor and id, under the canonical bump. Its amount is positive. Its account holds at least `R + amount`. All lamports together fit in a u64.
- `initialize.dfy`, `claim.dfy` and `cancel.dfy` model the three instructions. Each one is split the way Anchor runs it:
  - the account constraints;
  - the handler;
  - for Claim and Cancel, the closing of the account at exit.
- `program.dfy` (`Program`) has:
  - dispatch over the three instructions;
  - runs of many transactions, which keep `Valid` and the lamport total;
  - terminal destruction;
  - the entry point as `lib.rs` actually declares it (see Findings).

The model makes these abstractions:

- **Address derivation.** A derived address is the constructor `ProgramDerived(seeds ++ [[bump]], program)`. This makes derivation injective, and distinct from every wallet key, as off-curve addresses are.
- **Canonical bump.** The runtime's search for the canonical bump is the function field `Runtime.bumpSearch`.
- **Rent.** The rent-exempt minimum for `LEN` bytes is the abstract constant `Runtime.rent` (R).
- **Clock.** The clock is the `now` argument of Initialize.
- **u64 lamports.** Balances are unbounded naturals. Every debit and credit carries the u64 check the code makes:
  - the system transfer, and the checked add in `close`;
  - the `-=`/`+=` in the Claim and Cancel handlers, which panic on overflow. This assumes overflow checks are on in the release build, as Anchor's workspace template sets.

  The ledger invariant keeps the total at or below `2^64 - 1`. That bound is what proves no handler subtraction or credit ever fails on a valid ledger.
- **`init` on an address that already holds lamports.** Anchor's `init` only tops the account up to R, so the escrow account then holds `max(previous, R) + amount`. On an address that held nothing, this is exactly `R + amount`, and the depositor pays exactly `amount + R`.

Three consequences of the code that are easy to miss:

- **Claim closes to the recipient.** Claim closes the escrow account to the recipient (`close = recipient`), so the recipient also receives the rent reservation. Only Cancel returns the reservation to the depositor.
- **Failures the program does not name.** A second Initialize for a live (depositor, id) pair fails inside `init` with an already-in-use failure. A Claim or Cancel naming an address without a record fails in Anchor's account loading: with AccountNotInitialized when the address holds no lamports, and with AccountOwnedByWrongProgram when it holds some (a wallet, or a derived address funded in advance). A depositor who cannot pay fails in the system transfer. `InsufficientBalance` is declared in errors.rs but never raised.
- **Cancel by a wrong signer.** The seeds of Cancel are re-derived from the signer's own key. On a valid ledger, a wrong signer is therefore refused by the seeds constraint before `has_one` is reached: `CancelInstruction.OnlyDepositorCancels` shows the result is `ConstraintSeeds`. So `UnauthorizedCancel` is raised only for a record whose address does not match its stored depositor, which a valid ledger never holds. The repository's test at tests/escrow.ts:440-446 expects `ConstraintHasOne` here; neither the seeds failure nor the `@ UnauthorizedCancel` annotation on `has_one` produces that name.

## Model

| member | source | states |
|---|---|---|
| Bytes.U64ToLe | anchor_project/escrow/programs/escrow/src/instructions/initialize.rs:22 | `escrow_id.to_le_bytes()` always has 8 bytes, and reading them back gives the id |
| Bytes.U64FromLe | anchor_project/escrow/programs/escrow/src/state.rs:12 | every 8-byte string is the encoding of exactly the u64 it decodes to, so the field encoding is a bijection |
| Bytes.U64ToLeInjective | anchor_project/escrow/programs/escrow/src/instructions/initialize.rs:22 | distinct ids have distinct 8-byte encodings, and equal ids equal ones |
| Bytes.I64RoundTrip | anchor_project/escrow/programs/escrow/src/state.rs:21 | `created_at` as signed 64-bit two's complement reads back as the same value |
| Errors.Code | anchor_project/escrow/programs/escrow/src/errors.rs:3-16 | each error kind has its Anchor code 6000+position, and the code maps back to that kind |
| Errors.EscrowErrorsDistinct | anchor_project/escrow/programs/escrow/src/errors.rs:4-16 | there are exactly four error kinds; they are pairwise distinct, with distinct codes and distinct messages |
| State.SeedPrefixIsEscrow | anchor_project/escrow/programs/escrow/src/state.rs:30 | the seed prefix is the byte string "escrow" |
| State.Encode | anchor_project/escrow/programs/escrow/src/state.rs:3-27 | the account data is LEN = 97 bytes: the discriminator, then depositor (32), recipient (32), amount (u64), bump (1), escrow_id (u64) and created_at (i64), each at its offset in declaration order |
| State.Decode | anchor_project/escrow/programs/escrow/src/state.rs:3-22 | data shorter than 8 bytes, or with another discriminator, is refused with the matching error; any accepted data re-encodes to its first 97 bytes |
| State.DecodeEncode | anchor_project/escrow/programs/escrow/src/state.rs:4-22 | decoding an encoded record gives back the same record |
| State.EncodeInjective | anchor_project/escrow/programs/escrow/src/state.rs:4-22 | two records have the same account data exactly when they are equal |
| Ledger.EscrowSeeds | anchor_project/escrow/programs/escrow/src/instructions/initialize.rs:19-23 | the seeds are "escrow", the depositor's 32-byte key, and the id as 8 bytes |
| Ledger.EscrowSeedsInjective | anchor_project/escrow/programs/escrow/src/instructions/initialize.rs:19-23 | two seed lists are equal exactly when depositor and id are both equal |
| Ledger.FindProgramAddress | anchor_project/escrow/programs/escrow/src/instructions/initialize.rs:19-24 | `bump` on `init`: the address is the seeds plus the found bump, under this program's id |
| Ledger.EscrowAddress | anchor_project/escrow/programs/escrow/src/instructions/initialize.rs:15-25 | the record address is a program-derived address that depends only on depositor and id; recipient and amount play no part |
| Ledger.CreateProgramAddressInjective | anchor_project/escrow/programs/escrow/src/instructions/claim.rs:16-23 | re-deriving with a stored bump hits an address exactly when the seeds and bump are the ones it came from |
| Ledger.EscrowAddressInjective | anchor_project/escrow/programs/escrow/src/instructions/initialize.rs:15-25 | two (depositor, id) pairs share an address exactly when they are equal |
| Ledger.Rederived | anchor_project/escrow/programs/escrow/src/instructions/claim.rs:16-23 | the `seeds` plus `bump = escrow.bump` re-derivation gives a derived address of this program; with the canonical bump it is exactly the escrow address of the supplied depositor and the stored id |
| Ledger.EscrowAddressIsNotAWallet | anchor_project/escrow/programs/escrow/src/instructions/initialize.rs:15-25 | an escrow address is never a wallet key, so nobody holds a key that signs for it |
| Ledger.BalancesWithinTotal | anchor_project/escrow/programs/escrow/src/instructions/claim.rs:57 | two distinct balances together never exceed the total, so on a valid ledger no u64 credit overflows |
| Ledger.MoveLamports | anchor_project/escrow/programs/escrow/src/instructions/initialize.rs:55-66 | a transfer fails with the shortfall error exactly when the source is short, and with overflow exactly when the credit leaves u64. On success the source loses n, the target gains n, every other balance and all records stay, and the total is unchanged |
| Ledger.CloseAccount | anchor_project/escrow/programs/escrow/src/instructions/claim.rs:26 | closing moves the whole account balance to the destination, empties the account and removes its record; all else and the total stay |
| Invariant.UniquePerPair | anchor_project/escrow/programs/escrow/src/instructions/initialize.rs:15-25 | on a valid ledger at most one record exists per (depositor, escrow_id) |
| Invariant.RecordAddressDetermines | anchor_project/escrow/programs/escrow/src/instructions/initialize.rs:15-25 | the record found at the address of (d, id) has depositor d and id id |
| Invariant.SeedsBindDepositor | anchor_project/escrow/programs/escrow/src/instructions/claim.rs:16-25 | on a valid ledger, the seeds constraint holds for a supplied depositor exactly when it is the stored depositor, which makes `has_one = depositor` redundant |
| InitializeInstruction.RentTopUp | anchor_project/escrow/programs/escrow/src/instructions/initialize.rs:15-18 | `init` with `payer = depositor` takes what lifts the account to R: all of R from an empty address |
| InitializeInstruction.InitAccounts | anchor_project/escrow/programs/escrow/src/instructions/initialize.rs:8-33 | the account checks pass exactly when the depositor signs, the named account is the derived address, it holds no record and the depositor can pay the reservation. The found bump is recorded, and the depositor pays the top-up into the new account |
| InitializeInstruction.NewRecord | anchor_project/escrow/programs/escrow/src/instructions/initialize.rs:48-53 | the record written holds the signer as depositor, the given recipient, amount and id, the canonical bump and the clock time; its stored bump re-derives the address it is written at |
| InitializeInstruction.Initialize | anchor_project/escrow/programs/escrow/src/instructions/initialize.rs:35-75 | a zero amount is refused. On success, the derived vacant address gets the record (depositor = signer, given recipient, amount, canonical bump, id, time), the depositor pays amount + top-up, the account holds max(old, R) + amount, nothing else changes and lamports are conserved. InvalidAmount only for amount 0; an unfundable deposit aborts |
| InitializeInstruction.ZeroAmountRejected | anchor_project/escrow/programs/escrow/src/instructions/initialize.rs:41 | with the accounts in order, amount 0 fails with exactly InvalidAmount |
| InitializeInstruction.InitializeSucceedsIff | anchor_project/escrow/programs/escrow/src/instructions/initialize.rs:35-66 | on a valid ledger Initialize succeeds if and only if: the depositor signs, the address is derived, it is vacant, the amount is positive, and the depositor holds top-up + amount |
| InitializeInstruction.FreshAddressAmounts | anchor_project/escrow/programs/escrow/src/instructions/initialize.rs:15-66 | on an address with no lamports, the depositor's balance drops by exactly amount + R, and the account holds exactly R + amount |
| InitializeInstruction.DuplicateRejected | anchor_project/escrow/programs/escrow/src/instructions/initialize.rs:15-25 | while a record for (depositor, id) is live, a second Initialize with that pair fails: already in use at the derived address, seeds mismatch elsewhere |
| InitializeInstruction.InitializePreservesValid | anchor_project/escrow/programs/escrow/src/instructions/initialize.rs:43-66 | a successful Initialize keeps the ledger invariant |
| ClaimInstruction.ClaimAccounts | anchor_project/escrow/programs/escrow/src/instructions/claim.rs:5-31 | the checks pass exactly when: the recipient signs, a record exists at the address, the address is re-derived from the supplied depositor with the stored id and bump, and the signer and the supplied depositor are the stored ones. With a matching address, a wrong signer gets exactly UnauthorizedClaim; a missing record gets AccountNotInitialized at an address holding no lamports and AccountOwnedByWrongProgram at one holding some |
| ClaimInstruction.ClaimHandler | anchor_project/escrow/programs/escrow/src/instructions/claim.rs:55-57 | the handler takes exactly `amount` from the escrow account and gives it to the recipient; the sum of the two is unchanged, and the only failure is a u64 overflow |
| ClaimInstruction.Claim | anchor_project/escrow/programs/escrow/src/instructions/claim.rs:5-62 | on success the signer is the stored recipient and the supplied depositor the stored depositor. The record is gone and the account empty; the recipient gains the account's whole balance. Only the account and the recipient change, and lamports are conserved. It fails only with the listed errors; UnauthorizedClaim only when the signer is not the stored recipient |
| ClaimInstruction.OnlyRecipientClaims | anchor_project/escrow/programs/escrow/src/instructions/claim.rs:24 | any signer other than the stored recipient is refused, with UnauthorizedClaim once the address checks out |
| ClaimInstruction.RecipientCanAlwaysClaim | anchor_project/escrow/programs/escrow/src/instructions/claim.rs:56-57 | on a valid ledger the subtraction never underflows and no credit overflows: the stored recipient always claims and gains at least amount + R |
| ClaimInstruction.DepositorUntouched | anchor_project/escrow/programs/escrow/src/instructions/claim.rs:11-13 | the depositor's balance is unchanged by Claim |
| ClaimInstruction.ClaimPreservesValid | anchor_project/escrow/programs/escrow/src/instructions/claim.rs:16-28 | a successful Claim keeps the ledger invariant |
| CancelInstruction.CancelAccounts | anchor_project/escrow/programs/escrow/src/instructions/cancel.rs:5-26 | the checks pass exactly when: the depositor signs, a record exists, the address is re-derived from the signer's key with the stored id and bump, and the signer is the stored depositor. A missing record gets AccountNotInitialized at an address holding no lamports and AccountOwnedByWrongProgram at one holding some; with a matching address a wrong signer gets UnauthorizedCancel |
| CancelInstruction.CancelHandler | anchor_project/escrow/programs/escrow/src/instructions/cancel.rs:50-52 | the handler moves exactly `amount` from the escrow account back to the depositor; the only failure is a u64 overflow |
| CancelInstruction.Cancel | anchor_project/escrow/programs/escrow/src/instructions/cancel.rs:5-57 | on success the signer is the stored depositor, the record is gone, the account is empty, and the depositor gains its whole balance. Nothing else changes and lamports are conserved. UnauthorizedCancel only when the signer is not the stored depositor |
| CancelInstruction.OnlyDepositorCancels | anchor_project/escrow/programs/escrow/src/instructions/cancel.rs:12-20 | on a valid ledger any signer other than the stored depositor is refused, already by the seeds constraint |
| CancelInstruction.DepositorCanAlwaysCancel | anchor_project/escrow/programs/escrow/src/instructions/cancel.rs:51-52 | on a valid ledger the stored depositor always cancels and regains at least amount + R |
| CancelInstruction.RecipientUntouched | anchor_project/escrow/programs/escrow/src/instructions/cancel.rs:6-26 | the recipient's balance is unchanged by Cancel |
| CancelInstruction.CancelPreservesValid | anchor_project/escrow/programs/escrow/src/instructions/cancel.rs:12-22 | a successful Cancel keeps the ledger invariant |
| Program.Dispatch | anchor_project/escrow/programs/escrow/src/instructions/mod.rs:1-7 | every accepted transaction was signed by its required signer and conserves lamports. InsufficientBalance is never raised; InvalidAmount only by Initialize with amount 0; UnauthorizedClaim only by a Claim whose signer is not the stored recipient; UnauthorizedCancel only by a Cancel whose signer is not the stored depositor |
| Program.Step | anchor_project/escrow/programs/escrow/src/instructions/mod.rs:1-7 | a transaction applies in full when its instruction succeeds and leaves the ledger unchanged when it fails; either way the lamport total is unchanged |
| Program.StepPreservesValid | anchor_project/escrow/programs/escrow/src/instructions/mod.rs:1-7 | every transaction, accepted or refused, keeps the ledger invariant |
| Program.RunPreservesValidAndLamports | anchor_project/escrow/programs/escrow/src/instructions/mod.rs:1-7 | any sequence of transactions keeps the invariant and the total number of lamports |
| Program.RunKeepsRecordsUnique | anchor_project/escrow/programs/escrow/src/instructions/initialize.rs:15-25 | after any sequence of transactions at most one record exists per (depositor, escrow_id) |
| Program.ClosedStaysClosed | anchor_project/escrow/programs/escrow/src/instructions/cancel.rs:21 | right after a successful Claim or Cancel, the next Claim or Cancel on that address fails, with AccountNotInitialized when signed |
| Program.NoInitializeKeepsAbsent | anchor_project/escrow/programs/escrow/src/instructions/initialize.rs:15-25 | only `init` creates an escrow account: an address without a record gains none during any run in which no Initialize names it |
| Program.NoInitializeKeepsEmpty | anchor_project/escrow/programs/escrow/src/instructions/cancel.rs:21 | a closed derived address keeps no record and no lamports through any run in which no Initialize names it, since only `init` and the Initialize transfer pay into it |
| Program.ClosedStaysClosedAfterRun | anchor_project/escrow/programs/escrow/src/instructions/cancel.rs:21 | after a Claim or Cancel closes an escrow account at a derived address, and any transactions follow that do not initialize the address again, every Claim or Cancel on it fails, with AccountNotInitialized when signed |
| Program.StrangerCannotBlockClaim | anchor_project/escrow/programs/escrow/src/instructions/claim.rs:24 | on a valid ledger a Claim by anyone but the stored recipient leaves the ledger exactly as it was, and the recipient's Claim then succeeds |
| Program.StubEntry | anchor_project/escrow/programs/escrow/src/lib.rs:5-16 | the declared entry point accepts only `initialize` and then changes nothing; Claim and Cancel find no handler |
| Program.StubNeverReachesHandlers | anchor_project/escrow/programs/escrow/src/lib.rs:9-12 | through the declared entry point no record is ever created, although the Initialize handler creates one for the same transaction |
| Program.StubCounterexample | anchor_project/escrow/programs/escrow/src/lib.rs:9-12 | a concrete Initialize that creates a record through the handlers and none through the declared entry point |

## Left out

- The real program-address computation: SHA-256 over the seeds, and the off-curve bump search. Derivation is an injective constructor, and the bump search is the runtime parameter `bumpSearch`. The 32-byte seed-length and 16-seed limits are not checked.
- The concrete rent-exempt amount. It is the abstract `Runtime.rent`, and Anchor's `max(1)` on it is not modelled.
- InitializeInstruction.InitializeSucceedsIff: the runtime's rent-state rule is not modelled. The cluster refuses a transaction that leaves a wallet with a balance above 0 but below its own rent-exempt minimum, so a depositor left with such a balance is refused, although the lemma says Initialize succeeds. The rule belongs to the runtime, not to this program, and the wallet's minimum is a second rent parameter the model does not carry.
- Transaction fees, and transactions holding several instructions or cross-program calls.
- `Clock::get()`. The timestamp is the argument `now`, and a failing clock read is not modelled.
- `msg!` logging, and the unused `signer_seeds` arrays in the Claim and Cancel handlers.
- Writability (`mut`) flags, the System program account check, and the account owners themselves. Anchor's owner check on `Account<Escrow>` is modelled through the ledger: an address without a record counts as not owned by this program, so it fails with AccountNotInitialized when it holds no lamports and with AccountOwnedByWrongProgram otherwise. Only this program creates records, at its own derived addresses.
- Any order among Anchor constraints other than the order they are declared in. Properties that depend on which check fires first are stated as "refused", and the error is named only where the code names it.
- A recipient key that is itself a program-derived address. In the model, depositor and recipient are 32-byte wallet keys.
- Lamports sent to an escrow address by ordinary system transfers. They are outside the three instructions. `Valid` asks for at least `R + amount`, so deposits to a live account would keep it. A deposit to a closed address would turn a later Claim's or Cancel's AccountNotInitialized into AccountOwnedByWrongProgram; `Program.ClosedStaysClosedAfterRun` still refuses that Claim or Cancel, but the error it names assumes no such deposit.
- The frontend (React hooks and components, wallet adapter, RPC, client-side filtering, the floating-point SOL-to-lamport conversion) and the test harness.

## Findings

| source | as written | input that shows it | evidently intended | confidence | as-written member | corrected member |
|---|---|---|---|---|---|---|
| anchor_project/escrow/programs/escrow/src/lib.rs:5-16 | the `#[program]` module declares one instruction, `initialize`, with no accounts and a body that only logs. The crate neither declares the `instructions` module nor routes to its handlers | any Initialize of a positive amount by a funded depositor at the derived address (`Program.StubCounterexample`): it succeeds and creates no record; every Claim and Cancel finds no handler | `initialize`, `claim` and `cancel` dispatch to the handlers in `instructions/` | not executed; high that the declared entry point never reaches the handlers | Program.StubEntry | Program.Dispatch |
