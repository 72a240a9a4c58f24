/** The Cancel instruction: the depositor signs, the escrow account is
    re-derived from the signer's key and checked against the stored terms,
    the amount moves back to the depositor, and the account is closed to the
    depositor. */
module CancelInstruction {
  import opened Bytes
  import opened Errors
  import opened State
  import opened Ledger
  import opened Invariant

  /** The account constraints of Cancel, in declaration order. The seeds use
      the signer's own key. Yields the record the instruction acts on. */
  function CancelAccounts(rt: Runtime, l: Ledger, signers: set<Pubkey>, depositor: Pubkey,
                          escrow: Address): (r: Result<Escrow>)
    ensures r.Ok? <==>
              && depositor in signers
              && escrow in l.records
              && escrow == Rederived(rt, depositor, l.records[escrow])
              && l.records[escrow].depositor == depositor
    ensures r.Ok? ==> r.value == l.records[escrow]
    ensures depositor in signers && escrow !in l.records ==>
              r == Err(if Balance(l, escrow) == 0 then AccountNotInitialized else AccountOwnedByWrongProgram)
    ensures && depositor in signers && escrow in l.records
            && escrow == Rederived(rt, depositor, l.records[escrow])
            && l.records[escrow].depositor != depositor
            ==> r == Err(Program(UnauthorizedCancel))
  {
    if depositor !in signers then Err(AccountNotSigner)
    else if escrow !in l.records then
      Err(if Balance(l, escrow) == 0 then AccountNotInitialized else AccountOwnedByWrongProgram)
    else
      var e := l.records[escrow];
      if escrow != Rederived(rt, depositor, e) then Err(ConstraintSeeds)
      else if e.depositor != depositor then Err(Program(UnauthorizedCancel))
      else Ok(e)
  }

  /** The handler: subtract the amount from the escrow account and add it back
      to the depositor, both as checked u64 arithmetic. */
  function CancelHandler(l: Ledger, depositor: Pubkey, escrow: Address, e: Escrow): (r: Result<Ledger>)
    requires escrow != Wallet(depositor)
    ensures r.Ok? ==> Balance(r.value, escrow) + e.amount == Balance(l, escrow)
    ensures r.Ok? ==> Balance(r.value, Wallet(depositor)) == Balance(l, Wallet(depositor)) + e.amount
    ensures r.Ok? ==> r.value.records == l.records
    ensures r.Ok? ==> BalancesFramed(l, r.value, {escrow, Wallet(depositor)})
    ensures r.Ok? ==> TotalLamports(r.value) == TotalLamports(l)
    ensures r.Err? ==> r.error == ArithmeticOverflow
  {
    MoveLamports(l, escrow, Wallet(depositor), e.amount, ArithmeticOverflow)
  }

  /** Cancel, signed by `depositor`, naming the escrow account. */
  function Cancel(rt: Runtime, l: Ledger, signers: set<Pubkey>, depositor: Pubkey, escrow: Address): (r: Result<Ledger>)
    ensures r.Ok? ==>
              && depositor in signers
              && escrow in l.records
              && l.records[escrow].depositor == depositor
              && escrow == Rederived(rt, depositor, l.records[escrow])
    ensures r.Ok? ==> r.value.records == l.records - {escrow}
    ensures r.Ok? ==> Balance(r.value, escrow) == 0
    ensures r.Ok? ==> Balance(r.value, Wallet(depositor)) == Balance(l, Wallet(depositor)) + Balance(l, escrow)
    ensures r.Ok? ==> BalancesFramed(l, r.value, {escrow, Wallet(depositor)})
    ensures r.Ok? ==> TotalLamports(r.value) == TotalLamports(l)
    ensures depositor in signers && escrow !in l.records ==>
              r == Err(if Balance(l, escrow) == 0 then AccountNotInitialized else AccountOwnedByWrongProgram)
    ensures r.Err? ==> r.error in {AccountNotSigner, AccountNotInitialized, AccountOwnedByWrongProgram,
                                   ConstraintSeeds,
                                   Program(UnauthorizedCancel), ArithmeticOverflow}
    ensures r == Err(Program(UnauthorizedCancel)) ==>
              escrow in l.records && l.records[escrow].depositor != depositor
  {
    match CancelAccounts(rt, l, signers, depositor, escrow)
    case Err(err) => Err(err)
    case Ok(e) =>
      match CancelHandler(l, depositor, escrow, e)
      case Err(err) => Err(err)
      case Ok(l1) => CloseAccount(l1, escrow, Wallet(depositor))
  }

  /** Only the stored depositor can cancel. On a valid ledger a wrong signer
      is already refused by the seeds constraint, since the address
      re-derived from its key is not the record's. */
  lemma OnlyDepositorCancels(rt: Runtime, l: Ledger, signers: set<Pubkey>, signer: Pubkey, escrow: Address)
    requires Valid(rt, l)
    requires escrow in l.records
    requires signer != l.records[escrow].depositor
    ensures Cancel(rt, l, signers, signer, escrow).Err?
    ensures signer in signers ==> Cancel(rt, l, signers, signer, escrow) == Err(ConstraintSeeds)
  {
    SeedsBindDepositor(rt, l, signer, escrow);
  }

  /** On a valid ledger the stored depositor, signing, always cancels
      successfully and regains the amount and the reservation. */
  lemma DepositorCanAlwaysCancel(rt: Runtime, l: Ledger, signers: set<Pubkey>, escrow: Address)
    requires Valid(rt, l)
    requires escrow in l.records
    requires l.records[escrow].depositor in signers
    ensures var e := l.records[escrow];
            var r := Cancel(rt, l, signers, e.depositor, escrow);
            && r.Ok?
            && Balance(r.value, Wallet(e.depositor)) >= Balance(l, Wallet(e.depositor)) + e.amount + rt.rent
  {
    var e := l.records[escrow];
    SeedsBindDepositor(rt, l, e.depositor, escrow);
    assert Funded(rt, l, escrow);
    BalancesWithinTotal(l, escrow, Wallet(e.depositor));
    var l1 := CancelHandler(l, e.depositor, escrow, e).value;
    assert Balance(l1, escrow) + Balance(l1, Wallet(e.depositor)) <= U64_MAX;
  }

  /** The recipient is not among Cancel's accounts: its balance stays. */
  lemma RecipientUntouched(rt: Runtime, l: Ledger, signers: set<Pubkey>, depositor: Pubkey, escrow: Address)
    requires escrow in l.records
    requires l.records[escrow].recipient != depositor
    requires Cancel(rt, l, signers, depositor, escrow).Ok?
    ensures var recipient := l.records[escrow].recipient;
            Balance(Cancel(rt, l, signers, depositor, escrow).value, Wallet(recipient))
            == Balance(l, Wallet(recipient))
  {
  }

  /** Cancel keeps the ledger valid. */
  lemma CancelPreservesValid(rt: Runtime, l: Ledger, signers: set<Pubkey>, depositor: Pubkey, escrow: Address)
    requires Valid(rt, l)
    requires Cancel(rt, l, signers, depositor, escrow).Ok?
    ensures Valid(rt, Cancel(rt, l, signers, depositor, escrow).value)
  {
    var l' := Cancel(rt, l, signers, depositor, escrow).value;
    forall a | a in l'.records
      ensures Funded(rt, l', a)
    {
      assert a.ProgramDerived? && a != escrow;
      assert Balance(l', a) == Balance(l, a);
    }
  }
}
