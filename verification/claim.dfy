/** The Claim instruction: the recipient signs, the escrow account is
    re-derived and checked against the stored terms, the amount moves to the
    recipient, and the account is closed to the recipient. */
module ClaimInstruction {
  import opened Bytes
  import opened Errors
  import opened State
  import opened Ledger
  import opened Invariant

  /** The account constraints of Claim, in declaration order. Yields the
      record the instruction acts on. */
  function ClaimAccounts(rt: Runtime, l: Ledger, signers: set<Pubkey>, recipient: Pubkey,
                         depositor: Pubkey, escrow: Address): (r: Result<Escrow>)
    ensures r.Ok? <==>
              && recipient in signers
              && escrow in l.records
              && escrow == Rederived(rt, depositor, l.records[escrow])
              && l.records[escrow].recipient == recipient
              && l.records[escrow].depositor == depositor
    ensures r.Ok? ==> r.value == l.records[escrow]
    ensures recipient in signers && escrow !in l.records ==>
              r == Err(if Balance(l, escrow) == 0 then AccountNotInitialized else AccountOwnedByWrongProgram)
    ensures && recipient in signers && escrow in l.records
            && escrow == Rederived(rt, depositor, l.records[escrow])
            && l.records[escrow].recipient != recipient
            ==> r == Err(Program(UnauthorizedClaim))
  {
    if recipient !in signers then Err(AccountNotSigner)
    else if escrow !in l.records then
      Err(if Balance(l, escrow) == 0 then AccountNotInitialized else AccountOwnedByWrongProgram)
    else
      var e := l.records[escrow];
      if escrow != Rederived(rt, depositor, e) then Err(ConstraintSeeds)
      else if e.recipient != recipient then Err(Program(UnauthorizedClaim))
      else if e.depositor != depositor then Err(ConstraintHasOne)
      else Ok(e)
  }

  /** The handler: subtract the amount from the escrow account and add it to
      the recipient, both as checked u64 arithmetic. */
  function ClaimHandler(l: Ledger, recipient: Pubkey, escrow: Address, e: Escrow): (r: Result<Ledger>)
    requires escrow != Wallet(recipient)
    ensures r.Ok? ==> Balance(r.value, escrow) + e.amount == Balance(l, escrow)
    ensures r.Ok? ==> Balance(r.value, Wallet(recipient)) == Balance(l, Wallet(recipient)) + e.amount
    ensures r.Ok? ==> Balance(r.value, escrow) + Balance(r.value, Wallet(recipient))
                        == Balance(l, escrow) + Balance(l, Wallet(recipient))
    ensures r.Ok? ==> r.value.records == l.records
    ensures r.Ok? ==> BalancesFramed(l, r.value, {escrow, Wallet(recipient)})
    ensures r.Ok? ==> TotalLamports(r.value) == TotalLamports(l)
    ensures r.Err? ==> r.error == ArithmeticOverflow
  {
    MoveLamports(l, escrow, Wallet(recipient), e.amount, ArithmeticOverflow)
  }

  /** Claim, signed by `recipient`, naming the depositor and the escrow account. */
  function Claim(rt: Runtime, l: Ledger, signers: set<Pubkey>, recipient: Pubkey,
                 depositor: Pubkey, escrow: Address): (r: Result<Ledger>)
    ensures r.Ok? ==>
              && recipient in signers
              && escrow in l.records
              && l.records[escrow].recipient == recipient
              && l.records[escrow].depositor == depositor
              && escrow == Rederived(rt, depositor, l.records[escrow])
    ensures r.Ok? ==> r.value.records == l.records - {escrow}
    ensures r.Ok? ==> Balance(r.value, escrow) == 0
    ensures r.Ok? ==> Balance(r.value, Wallet(recipient)) == Balance(l, Wallet(recipient)) + Balance(l, escrow)
    ensures r.Ok? ==> BalancesFramed(l, r.value, {escrow, Wallet(recipient)})
    ensures r.Ok? ==> TotalLamports(r.value) == TotalLamports(l)
    ensures recipient in signers && escrow !in l.records ==>
              r == Err(if Balance(l, escrow) == 0 then AccountNotInitialized else AccountOwnedByWrongProgram)
    ensures r.Err? ==> r.error in {AccountNotSigner, AccountNotInitialized, AccountOwnedByWrongProgram,
                                   ConstraintSeeds,
                                   Program(UnauthorizedClaim), ConstraintHasOne, ArithmeticOverflow}
    ensures r == Err(Program(UnauthorizedClaim)) ==>
              escrow in l.records && l.records[escrow].recipient != recipient
  {
    match ClaimAccounts(rt, l, signers, recipient, depositor, escrow)
    case Err(err) => Err(err)
    case Ok(e) =>
      match ClaimHandler(l, recipient, escrow, e)
      case Err(err) => Err(err)
      case Ok(l1) => CloseAccount(l1, escrow, Wallet(recipient))
  }

  /** Only the stored recipient can claim: any other signer is refused. */
  lemma OnlyRecipientClaims(rt: Runtime, l: Ledger, signers: set<Pubkey>, signer: Pubkey,
                            depositor: Pubkey, escrow: Address)
    requires escrow in l.records
    requires signer != l.records[escrow].recipient
    ensures Claim(rt, l, signers, signer, depositor, escrow).Err?
    ensures signer in signers && escrow == Rederived(rt, depositor, l.records[escrow]) ==>
              Claim(rt, l, signers, signer, depositor, escrow) == Err(Program(UnauthorizedClaim))
  {
  }

  /** On a valid ledger the handler's subtraction never underflows and no
      credit overflows: the stored recipient, signing and naming the stored
      depositor, always claims successfully, receiving the amount and the
      reservation. */
  lemma RecipientCanAlwaysClaim(rt: Runtime, l: Ledger, signers: set<Pubkey>, escrow: Address)
    requires Valid(rt, l)
    requires escrow in l.records
    requires l.records[escrow].recipient in signers
    ensures var e := l.records[escrow];
            var r := Claim(rt, l, signers, e.recipient, e.depositor, escrow);
            && r.Ok?
            && Balance(r.value, Wallet(e.recipient)) >= Balance(l, Wallet(e.recipient)) + e.amount + rt.rent
  {
    var e := l.records[escrow];
    SeedsBindDepositor(rt, l, e.depositor, escrow);
    assert Funded(rt, l, escrow);
    BalancesWithinTotal(l, escrow, Wallet(e.recipient));
    var l1 := ClaimHandler(l, e.recipient, escrow, e).value;
    assert Balance(l1, escrow) + Balance(l1, Wallet(e.recipient)) <= U64_MAX;
  }

  /** The depositor's account is not writable in Claim: its balance stays. */
  lemma DepositorUntouched(rt: Runtime, l: Ledger, signers: set<Pubkey>, recipient: Pubkey,
                           depositor: Pubkey, escrow: Address)
    requires recipient != depositor
    requires Claim(rt, l, signers, recipient, depositor, escrow).Ok?
    ensures Balance(Claim(rt, l, signers, recipient, depositor, escrow).value, Wallet(depositor))
            == Balance(l, Wallet(depositor))
  {
  }

  /** Claim keeps the ledger valid. */
  lemma ClaimPreservesValid(rt: Runtime, l: Ledger, signers: set<Pubkey>, recipient: Pubkey,
                            depositor: Pubkey, escrow: Address)
    requires Valid(rt, l)
    requires Claim(rt, l, signers, recipient, depositor, escrow).Ok?
    ensures Valid(rt, Claim(rt, l, signers, recipient, depositor, escrow).value)
  {
    var l' := Claim(rt, l, signers, recipient, depositor, escrow).value;
    forall a | a in l'.records
      ensures Funded(rt, l', a)
    {
      assert a.ProgramDerived? && a != escrow;
      assert Balance(l', a) == Balance(l, a);
    }
  }
}
