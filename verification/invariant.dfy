/** What holds of every ledger the three instructions can reach from an
    empty one: each record sits at the address derived from its own
    depositor and id under the canonical bump, holds a positive amount, and
    its account keeps at least the rent reservation plus that amount; and the
    lamports in the ledger fit in a u64. */
module Invariant {
  import opened Bytes
  import opened State
  import opened Ledger

  ghost predicate WellPlaced(rt: Runtime, a: Address, e: Escrow)
  {
    && a == EscrowAddress(rt, e.depositor, e.escrowId)
    && e.bump == CanonicalBump(rt, e.depositor, e.escrowId)
    && e.amount > 0
  }

  ghost predicate Funded(rt: Runtime, l: Ledger, a: Address)
    requires a in l.records
  {
    Balance(l, a) >= rt.rent + l.records[a].amount
  }

  ghost predicate Valid(rt: Runtime, l: Ledger)
  {
    && (forall a | a in l.records :: WellPlaced(rt, a, l.records[a]))
    && (forall a | a in l.records :: Funded(rt, l, a))
    && TotalLamports(l) <= U64_MAX
  }

  /** The empty ledger and any ledger of plain wallets are valid. */
  lemma NoRecordsValid(rt: Runtime, l: Ledger)
    requires l.records == map[]
    requires TotalLamports(l) <= U64_MAX
    ensures Valid(rt, l)
  {
  }

  /** At most one live record per (depositor, escrow id). */
  lemma UniquePerPair(rt: Runtime, l: Ledger, a1: Address, a2: Address)
    requires Valid(rt, l)
    requires a1 in l.records && a2 in l.records
    requires l.records[a1].depositor == l.records[a2].depositor
    requires l.records[a1].escrowId == l.records[a2].escrowId
    ensures a1 == a2
  {
  }

  /** A record is found only at the address of its own (depositor, id). */
  lemma RecordAddressDetermines(rt: Runtime, l: Ledger, d: Pubkey, i: u64)
    requires Valid(rt, l)
    requires EscrowAddress(rt, d, i) in l.records
    ensures l.records[EscrowAddress(rt, d, i)].depositor == d
    ensures l.records[EscrowAddress(rt, d, i)].escrowId == i
  {
    var e := l.records[EscrowAddress(rt, d, i)];
    EscrowAddressInjective(rt, d, i, e.depositor, e.escrowId);
  }

  /** On a valid ledger the seeds constraint alone ties the supplied
      depositor to the stored one. */
  lemma SeedsBindDepositor(rt: Runtime, l: Ledger, depositor: Pubkey, escrow: Address)
    requires Valid(rt, l)
    requires escrow in l.records
    ensures escrow == Rederived(rt, depositor, l.records[escrow]) <==> depositor == l.records[escrow].depositor
  {
    var e := l.records[escrow];
    CreateProgramAddressInjective(EscrowSeeds(depositor, e.escrowId), e.bump,
                                  EscrowSeeds(e.depositor, e.escrowId), e.bump, rt.programId);
    EscrowSeedsInjective(depositor, e.escrowId, e.depositor, e.escrowId);
  }
}
