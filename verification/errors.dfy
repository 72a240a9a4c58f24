/** The program's own error kinds (`EscrowError`), the framework and runtime
    failures the three instructions can end in, and the result type they return. */
module Errors {

  /** The program's error enum, in declaration order. */
  datatype EscrowError =
    | InsufficientBalance
    | InvalidAmount
    | UnauthorizedClaim
    | UnauthorizedCancel

  /** Anchor numbers a program's custom errors from 6000 in declaration order. */
  const CUSTOM_ERROR_OFFSET: nat := 6000

  const AllEscrowErrors: seq<EscrowError> :=
    [InsufficientBalance, InvalidAmount, UnauthorizedClaim, UnauthorizedCancel]

  function Code(e: EscrowError): (c: nat)
    ensures CUSTOM_ERROR_OFFSET <= c < CUSTOM_ERROR_OFFSET + |AllEscrowErrors|
    ensures AllEscrowErrors[c - CUSTOM_ERROR_OFFSET] == e
  {
    match e
    case InsufficientBalance => 6000
    case InvalidAmount => 6001
    case UnauthorizedClaim => 6002
    case UnauthorizedCancel => 6003
  }

  function Message(e: EscrowError): string
  {
    match e
    case InsufficientBalance => "Insufficient balance to create escrow"
    case InvalidAmount => "Amount must be greater than 0"
    case UnauthorizedClaim => "Unauthorized: Only recipient can claim"
    case UnauthorizedCancel => "Unauthorized: Only depositor can cancel"
  }

  /** There are exactly four error kinds, pairwise distinct, each with its own
      code and its own message. */
  lemma EscrowErrorsDistinct()
    ensures |AllEscrowErrors| == 4
    ensures forall e: EscrowError :: e in AllEscrowErrors
    ensures forall i, j :: 0 <= i < j < |AllEscrowErrors| ==> AllEscrowErrors[i] != AllEscrowErrors[j]
    ensures forall e1, e2: EscrowError :: Code(e1) == Code(e2) ==> e1 == e2
    ensures forall e1, e2: EscrowError :: Message(e1) == Message(e2) ==> e1 == e2
  {
    forall e: EscrowError
      ensures e in AllEscrowErrors
    {
      assert AllEscrowErrors[Code(e) - CUSTOM_ERROR_OFFSET] == e;
    }
  }

  /** Every way an instruction can fail. Besides the program's own kinds these
      are the failures Anchor's account checks and the runtime produce. */
  datatype Error =
    | Program(code: EscrowError)
    | AccountNotSigner            // a `Signer` account did not sign
    | AccountNotInitialized       // the address holds neither a record nor lamports
    | AccountOwnedByWrongProgram  // the address holds lamports but no record of this program
    | AccountAlreadyInUse         // `init` at an address that already holds a record
    | ConstraintSeeds             // supplied address differs from the re-derived one
    | ConstraintHasOne            // a `has_one` mismatch without a custom error
    | InsufficientFunds           // the system transfer found too few lamports
    | ArithmeticOverflow          // a u64 lamport balance would leave its range
    | AccountDiscriminatorNotFound
    | AccountDiscriminatorMismatch
    | AccountDidNotDeserialize
    | InstructionFallbackNotFound // no handler for the instruction

  datatype Result<T> = Ok(value: T) | Err(error: Error)
}
