/** The Initialize instruction: the depositor creates the escrow account at
    the address derived from ("escrow", depositor, escrow id), pays its rent
    reservation, records the terms, and moves the amount into it. */
module InitializeInstruction {
  import opened Bytes
  import opened Errors
  import opened State
  import opened Ledger
  import opened Invariant

  function Max(a: nat, b: nat): (m: nat)
    ensures m >= a && m >= b && (m == a || m == b)
  {
    if a >= b then a else b
  }

  /** Lamports `init` takes from the payer: what lifts the account to the
      rent reservation, and nothing if the address already holds that much. */
  function RentTopUp(rt: Runtime, l: Ledger, escrow: Address): (n: nat)
    ensures Balance(l, escrow) + n == Max(Balance(l, escrow), rt.rent)
    ensures Balance(l, escrow) == 0 ==> n == rt.rent
  {
    if Balance(l, escrow) >= rt.rent then 0 else rt.rent - Balance(l, escrow)
  }

  /** The account constraints of Initialize: the depositor signs, and the
      escrow account is created (`init`) at the address found from the seeds,
      paid for by the depositor. Yields the ledger with the account created
      (funded, no record written yet) and the bump the search found. */
  function InitAccounts(rt: Runtime, l: Ledger, signers: set<Pubkey>, depositor: Pubkey,
                        escrow: Address, escrowId: u64): (r: Result<(Ledger, u8)>)
    ensures r.Ok? <==>
              && depositor in signers
              && escrow == EscrowAddress(rt, depositor, escrowId)
              && escrow !in l.records
              && Balance(l, Wallet(depositor)) >= RentTopUp(rt, l, escrow)
              && Max(Balance(l, escrow), rt.rent) <= U64_MAX
    ensures r.Ok? ==> r.value.1 == CanonicalBump(rt, depositor, escrowId)
    ensures r.Ok? ==> r.value.0.records == l.records
    ensures r.Ok? ==> Balance(r.value.0, Wallet(depositor)) == Balance(l, Wallet(depositor)) - RentTopUp(rt, l, escrow)
    ensures r.Ok? ==> Balance(r.value.0, escrow) == Max(Balance(l, escrow), rt.rent)
    ensures r.Ok? ==> BalancesFramed(l, r.value.0, {Wallet(depositor), escrow})
    ensures r.Ok? ==> TotalLamports(r.value.0) == TotalLamports(l)
    ensures r.Err? ==> r.error in {AccountNotSigner, ConstraintSeeds, AccountAlreadyInUse,
                                   InsufficientFunds, ArithmeticOverflow}
  {
    if depositor !in signers then Err(AccountNotSigner)
    else
      var (pda, bump) := FindProgramAddress(rt, EscrowSeeds(depositor, escrowId));
      if escrow != pda then Err(ConstraintSeeds)
      else if escrow in l.records then Err(AccountAlreadyInUse)
      else
        match MoveLamports(l, Wallet(depositor), escrow, RentTopUp(rt, l, escrow), InsufficientFunds)
        case Err(err) => Err(err)
        case Ok(funded) => Ok((funded, bump))
  }

  /** The record Initialize writes: the signer as depositor, the given
      recipient, amount and id, the bump the search found, and the clock. Its
      stored bump re-derives the address it is written at. */
  function NewRecord(rt: Runtime, depositor: Pubkey, recipient: Pubkey, amount: u64,
                     escrowId: u64, now: i64): (e: Escrow)
    ensures e.depositor == depositor && e.recipient == recipient
    ensures e.amount == amount && e.escrowId == escrowId && e.createdAt == now
    ensures e.bump == CanonicalBump(rt, depositor, escrowId)
    ensures Rederived(rt, e.depositor, e) == EscrowAddress(rt, depositor, escrowId)
  {
    Escrow(depositor, recipient, amount, CanonicalBump(rt, depositor, escrowId), escrowId, now)
  }

  /** Initialize(amount, escrow_id) with the depositor's signature, the
      escrow account and the recipient's key; `now` is the cluster clock. */
  function Initialize(rt: Runtime, l: Ledger, signers: set<Pubkey>, depositor: Pubkey, escrow: Address,
                      recipient: Pubkey, amount: u64, escrowId: u64, now: i64): (r: Result<Ledger>)
    ensures amount == 0 ==> r.Err?
    ensures r.Ok? ==>
              && depositor in signers
              && escrow == EscrowAddress(rt, depositor, escrowId)
              && escrow !in l.records
    ensures r.Ok? ==> r.value.records == l.records[escrow := NewRecord(rt, depositor, recipient, amount, escrowId, now)]
    ensures r.Ok? ==> Balance(r.value, Wallet(depositor)) + amount + RentTopUp(rt, l, escrow)
                        == Balance(l, Wallet(depositor))
    ensures r.Ok? ==> Balance(r.value, escrow) == Max(Balance(l, escrow), rt.rent) + amount
    ensures r.Ok? ==> BalancesFramed(l, r.value, {Wallet(depositor), escrow})
    ensures r.Ok? ==> TotalLamports(r.value) == TotalLamports(l)
    ensures Balance(l, Wallet(depositor)) < RentTopUp(rt, l, escrow) + amount ==> r.Err?
    ensures r.Err? ==> r.error in {AccountNotSigner, ConstraintSeeds, AccountAlreadyInUse,
                                   InsufficientFunds, ArithmeticOverflow, Program(InvalidAmount)}
    ensures r == Err(Program(InvalidAmount)) ==> amount == 0
  {
    match InitAccounts(rt, l, signers, depositor, escrow, escrowId)
    case Err(err) => Err(err)
    case Ok(created) =>
      var (l1, bump) := created;
      if amount == 0 then Err(Program(InvalidAmount))
      else
        var l2 := l1.(records := l1.records[escrow := Escrow(depositor, recipient, amount, bump, escrowId, now)]);
        MoveLamports(l2, Wallet(depositor), escrow, amount, InsufficientFunds)
  }

  /** With the accounts in order, a zero amount is rejected with InvalidAmount. */
  lemma ZeroAmountRejected(rt: Runtime, l: Ledger, signers: set<Pubkey>, depositor: Pubkey,
                           recipient: Pubkey, escrowId: u64, now: i64)
    requires Valid(rt, l)
    requires depositor in signers
    requires EscrowAddress(rt, depositor, escrowId) !in l.records
    requires Balance(l, Wallet(depositor)) >= RentTopUp(rt, l, EscrowAddress(rt, depositor, escrowId))
    ensures Initialize(rt, l, signers, depositor, EscrowAddress(rt, depositor, escrowId), recipient, 0, escrowId, now)
            == Err(Program(InvalidAmount))
  {
    var escrow := EscrowAddress(rt, depositor, escrowId);
    BalancesWithinTotal(l, Wallet(depositor), escrow);
  }

  /** Initialize succeeds exactly when the depositor signs, names the derived
      address, the address holds no record, the amount is positive and the
      depositor can pay the reservation and the amount. */
  lemma InitializeSucceedsIff(rt: Runtime, l: Ledger, signers: set<Pubkey>, depositor: Pubkey, escrow: Address,
                              recipient: Pubkey, amount: u64, escrowId: u64, now: i64)
    requires Valid(rt, l)
    ensures Initialize(rt, l, signers, depositor, escrow, recipient, amount, escrowId, now).Ok? <==>
              && depositor in signers
              && escrow == EscrowAddress(rt, depositor, escrowId)
              && escrow !in l.records
              && amount > 0
              && Balance(l, Wallet(depositor)) >= RentTopUp(rt, l, escrow) + amount
  {
    var r := Initialize(rt, l, signers, depositor, escrow, recipient, amount, escrowId, now);
    if && depositor in signers
       && escrow == EscrowAddress(rt, depositor, escrowId)
       && escrow !in l.records
       && amount > 0
       && Balance(l, Wallet(depositor)) >= RentTopUp(rt, l, escrow) + amount
    {
      BalancesWithinTotal(l, Wallet(depositor), escrow);
      var created := InitAccounts(rt, l, signers, depositor, escrow, escrowId);
      assert created.Ok?;
      var l1 := created.value.0;
      var l2 := l1.(records := l1.records[escrow := NewRecord(rt, depositor, recipient, amount, escrowId, now)]);
      assert Balance(l2, escrow) + amount == Balance(l, escrow) + RentTopUp(rt, l, escrow) + amount;
    }
  }

  /** On an address that held no lamports, the depositor pays exactly the
      amount plus the reservation, and the account holds exactly that. */
  lemma FreshAddressAmounts(rt: Runtime, l: Ledger, signers: set<Pubkey>, depositor: Pubkey, escrow: Address,
                            recipient: Pubkey, amount: u64, escrowId: u64, now: i64)
    requires Balance(l, escrow) == 0
    requires Initialize(rt, l, signers, depositor, escrow, recipient, amount, escrowId, now).Ok?
    ensures var l' := Initialize(rt, l, signers, depositor, escrow, recipient, amount, escrowId, now).value;
            && Balance(l', Wallet(depositor)) == Balance(l, Wallet(depositor)) - (amount + rt.rent)
            && Balance(l', escrow) == rt.rent + amount
  {
  }

  /** While a record for (depositor, escrow id) is live, a second Initialize
      with the same pair fails whatever address it names. */
  lemma DuplicateRejected(rt: Runtime, l: Ledger, live: Address, signers: set<Pubkey>, escrow: Address,
                          recipient: Pubkey, amount: u64, now: i64)
    requires Valid(rt, l)
    requires live in l.records
    requires l.records[live].depositor in signers
    ensures var e := l.records[live];
            Initialize(rt, l, signers, e.depositor, escrow, recipient, amount, e.escrowId, now)
            == Err(if escrow == live then AccountAlreadyInUse else ConstraintSeeds)
  {
  }

  /** Initialize keeps the ledger valid. */
  lemma InitializePreservesValid(rt: Runtime, l: Ledger, signers: set<Pubkey>, depositor: Pubkey, escrow: Address,
                                 recipient: Pubkey, amount: u64, escrowId: u64, now: i64)
    requires Valid(rt, l)
    requires Initialize(rt, l, signers, depositor, escrow, recipient, amount, escrowId, now).Ok?
    ensures Valid(rt, Initialize(rt, l, signers, depositor, escrow, recipient, amount, escrowId, now).value)
  {
    var l' := Initialize(rt, l, signers, depositor, escrow, recipient, amount, escrowId, now).value;
    forall a | a in l'.records
      ensures WellPlaced(rt, a, l'.records[a]) && Funded(rt, l', a)
    {
      if a != escrow {
        assert a.ProgramDerived?;
        assert Balance(l', a) == Balance(l, a);
      }
    }
  }
}
