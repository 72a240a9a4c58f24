/** The program as a whole: the three instructions as its entry points,
    each transaction applied all-or-nothing, and the properties that hold of
    any sequence of transactions. Also the entry point as lib.rs declares it,
    which reaches none of the three handlers. */
module Program {
  import opened Bytes
  import opened Errors
  import opened State
  import opened Ledger
  import opened Invariant
  import opened InitializeInstruction
  import opened ClaimInstruction
  import opened CancelInstruction

  datatype Instruction =
    | InitializeIx(depositor: Pubkey, escrow: Address, recipient: Pubkey, amount: u64, escrowId: u64, now: i64)
    | ClaimIx(recipient: Pubkey, depositor: Pubkey, escrow: Address)
    | CancelIx(depositor: Pubkey, escrow: Address)
  {
    /** The account that must sign. */
    function Signer(): Pubkey
    {
      match this
      case InitializeIx(d, _, _, _, _, _) => d
      case ClaimIx(r, _, _) => r
      case CancelIx(d, _) => d
    }
  }

  /** One instruction and the keys that signed its transaction. */
  datatype Transaction = Transaction(signers: set<Pubkey>, ix: Instruction)

  /** Route a transaction to its instruction. */
  function Dispatch(rt: Runtime, l: Ledger, tx: Transaction): (r: Result<Ledger>)
    ensures r.Ok? ==> tx.ix.Signer() in tx.signers
    ensures r.Ok? ==> TotalLamports(r.value) == TotalLamports(l)
    ensures r != Err(Program(InsufficientBalance))
    ensures r == Err(Program(InvalidAmount)) ==> tx.ix.InitializeIx? && tx.ix.amount == 0
    ensures r == Err(Program(UnauthorizedClaim)) ==>
              && tx.ix.ClaimIx?
              && tx.ix.escrow in l.records
              && l.records[tx.ix.escrow].recipient != tx.ix.recipient
    ensures r == Err(Program(UnauthorizedCancel)) ==>
              && tx.ix.CancelIx?
              && tx.ix.escrow in l.records
              && l.records[tx.ix.escrow].depositor != tx.ix.depositor
  {
    match tx.ix
    case InitializeIx(depositor, escrow, recipient, amount, escrowId, now) =>
      Initialize(rt, l, tx.signers, depositor, escrow, recipient, amount, escrowId, now)
    case ClaimIx(recipient, depositor, escrow) =>
      Claim(rt, l, tx.signers, recipient, depositor, escrow)
    case CancelIx(depositor, escrow) =>
      Cancel(rt, l, tx.signers, depositor, escrow)
  }

  /** A transaction either applies in full or leaves the ledger as it was. */
  function Step(rt: Runtime, l: Ledger, tx: Transaction): (l': Ledger)
    ensures Dispatch(rt, l, tx).Err? ==> l' == l
    ensures Dispatch(rt, l, tx).Ok? ==> l' == Dispatch(rt, l, tx).value
    ensures TotalLamports(l') == TotalLamports(l)
  {
    match Dispatch(rt, l, tx)
    case Ok(l') => l'
    case Err(_) => l
  }

  /** The ledger after a sequence of transactions. */
  function Run(rt: Runtime, l: Ledger, txs: seq<Transaction>): Ledger
    decreases |txs|
  {
    if |txs| == 0 then l else Run(rt, Step(rt, l, txs[0]), txs[1..])
  }

  lemma StepPreservesValid(rt: Runtime, l: Ledger, tx: Transaction)
    requires Valid(rt, l)
    ensures Valid(rt, Step(rt, l, tx))
  {
    if Dispatch(rt, l, tx).Ok? {
      match tx.ix
      case InitializeIx(depositor, escrow, recipient, amount, escrowId, now) =>
        InitializePreservesValid(rt, l, tx.signers, depositor, escrow, recipient, amount, escrowId, now);
      case ClaimIx(recipient, depositor, escrow) =>
        ClaimPreservesValid(rt, l, tx.signers, recipient, depositor, escrow);
      case CancelIx(depositor, escrow) =>
        CancelPreservesValid(rt, l, tx.signers, depositor, escrow);
    }
  }

  /** Any sequence of transactions keeps the ledger valid and neither creates
      nor destroys a lamport. */
  lemma {:induction false} RunPreservesValidAndLamports(rt: Runtime, l: Ledger, txs: seq<Transaction>)
    requires Valid(rt, l)
    ensures Valid(rt, Run(rt, l, txs))
    ensures TotalLamports(Run(rt, l, txs)) == TotalLamports(l)
    decreases |txs|
  {
    if |txs| > 0 {
      StepPreservesValid(rt, l, txs[0]);
      RunPreservesValidAndLamports(rt, Step(rt, l, txs[0]), txs[1..]);
    }
  }

  /** However the ledger was reached from a valid one, it holds at most one
      record per (depositor, escrow id). */
  lemma RunKeepsRecordsUnique(rt: Runtime, l: Ledger, txs: seq<Transaction>, a1: Address, a2: Address)
    requires Valid(rt, l)
    requires a1 in Run(rt, l, txs).records && a2 in Run(rt, l, txs).records
    requires Run(rt, l, txs).records[a1].depositor == Run(rt, l, txs).records[a2].depositor
    requires Run(rt, l, txs).records[a1].escrowId == Run(rt, l, txs).records[a2].escrowId
    ensures a1 == a2
  {
    RunPreservesValidAndLamports(rt, l, txs);
    UniquePerPair(rt, Run(rt, l, txs), a1, a2);
  }

  /** Claim and Cancel end a record for good: once one of them has closed an
      escrow account, every later Claim or Cancel naming it is refused, with
      AccountNotInitialized when it is signed. */
  lemma ClosedStaysClosed(rt: Runtime, l: Ledger, tx: Transaction, next: Transaction)
    requires tx.ix.ClaimIx? || tx.ix.CancelIx?
    requires Dispatch(rt, l, tx).Ok?
    requires next.ix.ClaimIx? || next.ix.CancelIx?
    requires next.ix.escrow == tx.ix.escrow
    ensures Dispatch(rt, Dispatch(rt, l, tx).value, next).Err?
    ensures next.ix.Signer() in next.signers ==>
              Dispatch(rt, Dispatch(rt, l, tx).value, next) == Err(AccountNotInitialized)
  {
  }

  /** No transaction of `txs` is an Initialize naming `a`. */
  predicate NoInitializeOf(txs: seq<Transaction>, a: Address)
  {
    forall i | 0 <= i < |txs| :: !(txs[i].ix.InitializeIx? && txs[i].ix.escrow == a)
  }

  /** Only Initialize writes a record: an address without one stays without
      one through any run in which no Initialize names it. */
  lemma {:induction false} NoInitializeKeepsAbsent(rt: Runtime, l: Ledger, txs: seq<Transaction>, a: Address)
    requires a !in l.records
    requires NoInitializeOf(txs, a)
    ensures a !in Run(rt, l, txs).records
    decreases |txs|
  {
    if |txs| > 0 {
      assert NoInitializeOf(txs[1..], a) by {
        forall i | 0 <= i < |txs[1..]|
          ensures !(txs[1..][i].ix.InitializeIx? && txs[1..][i].ix.escrow == a)
        {
          assert txs[1..][i] == txs[i + 1];
        }
      }
      NoInitializeKeepsAbsent(rt, Step(rt, l, txs[0]), txs[1..], a);
    }
  }

  /** A derived address with neither a record nor lamports stays so through
      any run in which no Initialize names it: only Initialize pays into a
      derived address the ledger holds no record for. */
  lemma {:induction false} NoInitializeKeepsEmpty(rt: Runtime, l: Ledger, txs: seq<Transaction>, a: Address)
    requires a.ProgramDerived?
    requires a !in l.records && Balance(l, a) == 0
    requires NoInitializeOf(txs, a)
    ensures a !in Run(rt, l, txs).records && Balance(Run(rt, l, txs), a) == 0
    decreases |txs|
  {
    if |txs| > 0 {
      assert NoInitializeOf(txs[1..], a) by {
        forall i | 0 <= i < |txs[1..]|
          ensures !(txs[1..][i].ix.InitializeIx? && txs[1..][i].ix.escrow == a)
        {
          assert txs[1..][i] == txs[i + 1];
        }
      }
      NoInitializeKeepsEmpty(rt, Step(rt, l, txs[0]), txs[1..], a);
    }
  }

  /** Terminal destruction across runs: after a Claim or Cancel has closed
      an escrow account at a derived address (as every record address of a
      valid ledger is), whatever transactions follow, as long as none
      initializes that address again, every Claim or Cancel naming it is
      refused, with AccountNotInitialized when it is signed. */
  lemma ClosedStaysClosedAfterRun(rt: Runtime, l: Ledger, tx: Transaction, txs: seq<Transaction>, next: Transaction)
    requires tx.ix.ClaimIx? || tx.ix.CancelIx?
    requires tx.ix.escrow.ProgramDerived?
    requires Dispatch(rt, l, tx).Ok?
    requires NoInitializeOf(txs, tx.ix.escrow)
    requires next.ix.ClaimIx? || next.ix.CancelIx?
    requires next.ix.escrow == tx.ix.escrow
    ensures Dispatch(rt, Run(rt, Dispatch(rt, l, tx).value, txs), next).Err?
    ensures next.ix.Signer() in next.signers ==>
              Dispatch(rt, Run(rt, Dispatch(rt, l, tx).value, txs), next) == Err(AccountNotInitialized)
  {
    NoInitializeKeepsEmpty(rt, Dispatch(rt, l, tx).value, txs, tx.ix.escrow);
  }

  /** A stranger's Claim is refused and changes nothing: the record is still
      there, and its recipient claims it afterwards. */
  lemma StrangerCannotBlockClaim(rt: Runtime, l: Ledger, escrow: Address, stranger: Pubkey,
                                 signers: set<Pubkey>, recipientSigners: set<Pubkey>)
    requires Valid(rt, l)
    requires escrow in l.records
    requires stranger != l.records[escrow].recipient
    requires l.records[escrow].recipient in recipientSigners
    ensures var e := l.records[escrow];
            var l1 := Step(rt, l, Transaction(signers, ClaimIx(stranger, e.depositor, escrow)));
            && l1 == l
            && Dispatch(rt, l1, Transaction(recipientSigners, ClaimIx(e.recipient, e.depositor, escrow))).Ok?
  {
    RecipientCanAlwaysClaim(rt, l, recipientSigners, escrow);
  }

  /** The entry point lib.rs actually declares: a single instruction named
      `initialize` whose body only logs. An Initialize transaction reaches it
      (its extra arguments and accounts are ignored); Claim and Cancel have
      no handler. */
  function StubEntry(l: Ledger, tx: Transaction): (r: Result<Ledger>)
    ensures r.Ok? ==> r.value == l
    ensures r.Err? ==> r.error == InstructionFallbackNotFound
    ensures r.Ok? <==> tx.ix.InitializeIx?
  {
    match tx.ix
    case InitializeIx(_, _, _, _, _, _) => Ok(l)
    case _ => Err(InstructionFallbackNotFound)
  }

  /** Through the stub no escrow is ever created, claimed or cancelled,
      whereas every Initialize the handler accepts creates one. */
  lemma StubNeverReachesHandlers(rt: Runtime, l: Ledger, tx: Transaction)
    ensures StubEntry(l, tx).Ok? ==> StubEntry(l, tx).value.records == l.records
    ensures tx.ix.InitializeIx? && Dispatch(rt, l, tx).Ok? ==>
              && tx.ix.escrow !in l.records
              && tx.ix.escrow in Dispatch(rt, l, tx).value.records
              && StubEntry(l, tx) == Ok(l)
  {
  }

  /** A concrete instance: on a ledger where one wallet holds 10 lamports and
      the rent reservation is 1, its Initialize of 5 lamports creates a record
      through the handlers but not through the stub. */
  lemma StubCounterexample()
    ensures var k: Pubkey := seq(32, _ => 1);
            var rt := Runtime(seq(32, _ => 2), 1, _ => 255);
            var l := Ledger(map[], map[Wallet(k) := 10]);
            var tx := Transaction({k}, InitializeIx(k, EscrowAddress(rt, k, 7), k, 5, 7, 0));
            && Dispatch(rt, l, tx).Ok?
            && EscrowAddress(rt, k, 7) in Dispatch(rt, l, tx).value.records
            && StubEntry(l, tx) == Ok(l)
            && EscrowAddress(rt, k, 7) !in l.records
  {
    var k: Pubkey := seq(32, _ => 1);
    var rt := Runtime(seq(32, _ => 2), 1, _ => 255);
    var l := Ledger(map[], map[Wallet(k) := 10]);
    TotalRemove(l.lamports, Wallet(k));
    assert l.lamports - {Wallet(k)} == map[];
    InitializeSucceedsIff(rt, l, {k}, k, EscrowAddress(rt, k, 7), k, 5, 7, 0);
  }
}
